/**
 Shared expression nodes. A node owns references to its children and carries its own
 identity and two summaries; it never changes after allocation. Children are allocated
 before their parents, so identities decrease along edges.
 */
module Nodes {
  import opened Naturals
  import opened Terms
  import opened Occurrences
  import L = Levels
  import W = Words

  /** One layer of a term over references of type `R`. */
  datatype ExprData<R> =
    | BVarD(i: nat)
    | SortD(l: L.Level)
    | ConstD(name: nat, us: seq<L.Level>)
    | AppD(f: R, x: R)
    | LamD(bi: BinderInfo, ty: R, body: R)
    | PiD(bi: BinderInfo, ty: R, body: R)
    | LetD(ty: R, val: R, body: R)
    | ProjD(sname: nat, field: nat, v: R)
    | LitD(lit: Literal)

  function Children<R>(d: ExprData<R>): seq<R> {
    match d
    case AppD(f, x) => [f, x]
    case LamD(_, ty, body) => [ty, body]
    case PiD(_, ty, body) => [ty, body]
    case LetD(ty, val, body) => [ty, val, body]
    case ProjD(_, _, v) => [v]
    case _ => []
  }

  /** The term one layer makes, its children given by position. */
  function BuildTerm(d: ExprData<nat>, pool: seq<Term>): Term
    requires forall k :: k in Children(d) ==> k < |pool|
  {
    match d
    case BVarD(i) => BVar(i)
    case SortD(l) => Sort(l)
    case ConstD(n, us) => Const(n, us)
    case LitD(lit) => Lit(lit)
    case AppD(f, x) => assert f in Children(d) && x in Children(d); App(pool[f], pool[x])
    case LamD(bi, ty, body) => assert ty in Children(d) && body in Children(d); Lam(bi, pool[ty], pool[body])
    case PiD(bi, ty, body) => assert ty in Children(d) && body in Children(d); Pi(bi, pool[ty], pool[body])
    case LetD(ty, val, body) =>
      assert ty in Children(d) && val in Children(d) && body in Children(d); Let(pool[ty], pool[val], pool[body])
    case ProjD(s, i, v) => assert v in Children(d); Proj(s, i, pool[v])
  }

  /** A layer over the references at the given positions. */
  function Pointed<R>(d: ExprData<nat>, pool: seq<R>): ExprData<R>
    requires forall k :: k in Children(d) ==> k < |pool|
  {
    match d
    case BVarD(i) => BVarD(i)
    case SortD(l) => SortD(l)
    case ConstD(n, us) => ConstD(n, us)
    case LitD(lit) => LitD(lit)
    case AppD(f, x) => assert f in Children(d) && x in Children(d); AppD(pool[f], pool[x])
    case LamD(bi, ty, body) => assert ty in Children(d) && body in Children(d); LamD(bi, pool[ty], pool[body])
    case PiD(bi, ty, body) => assert ty in Children(d) && body in Children(d); PiD(bi, pool[ty], pool[body])
    case LetD(ty, val, body) =>
      assert ty in Children(d) && val in Children(d) && body in Children(d); LetD(pool[ty], pool[val], pool[body])
    case ProjD(s, i, v) => assert v in Children(d); ProjD(s, i, pool[v])
  }

  lemma PointedChildren<R>(d: ExprData<nat>, pool: seq<R>)
    requires forall k :: k in Children(d) ==> k < |pool|
    ensures forall c :: c in Children(Pointed(d, pool)) ==> c in pool
  {
    match d
    case AppD(f, x) => assert f in Children(d) && x in Children(d);
    case LamD(_, ty, body) => assert ty in Children(d) && body in Children(d);
    case PiD(_, ty, body) => assert ty in Children(d) && body in Children(d);
    case LetD(ty, val, body) => assert ty in Children(d) && val in Children(d) && body in Children(d);
    case ProjD(_, _, v) => assert v in Children(d);
    case _ =>
  }

  class ExprNode {
    const identity: nat
    const data: ExprData<ExprNode>
    const loose: nat
    const used: nat

    constructor (identity: nat, data: ExprData<ExprNode>)
      ensures this.identity == identity && this.data == data
      ensures this.loose == LooseOf(data) && this.used == UsedOf(data)
    {
      this.identity := identity;
      this.data := data;
      this.loose := LooseOf(data);
      this.used := UsedOf(data);
    }
  }

  /** The range of a node, read off its children's cached ranges. */
  function LooseOf(d: ExprData<ExprNode>): nat {
    match d
    case BVarD(i) => i + 1
    case SortD(_) => 0
    case ConstD(_, _) => 0
    case LitD(_) => 0
    case AppD(f, x) => MaxNat(f.loose, x.loose)
    case LamD(_, ty, body) => MaxNat(ty.loose, Pred(body.loose))
    case PiD(_, ty, body) => MaxNat(ty.loose, Pred(body.loose))
    case LetD(ty, val, body) => MaxNat(MaxNat(ty.loose, val.loose), Pred(body.loose))
    case ProjD(_, _, v) => v.loose
  }

  function UsedOf(d: ExprData<ExprNode>): nat {
    match d
    case BVarD(i) => if i >= 64 then USED_OVERFLOW else W.Pow2(i)
    case SortD(_) => 0
    case ConstD(_, _) => 0
    case LitD(_) => 0
    case AppD(f, x) => UsedOr(f.used, x.used)
    case LamD(_, ty, body) => UsedOr(ty.used, UsedUnderBinder(body.used))
    case PiD(_, ty, body) => UsedOr(ty.used, UsedUnderBinder(body.used))
    case LetD(ty, val, body) => UsedOr(UsedOr(ty.used, val.used), UsedUnderBinder(body.used))
    case ProjD(_, _, v) => v.used
  }

  /** Children precede their parent, all the way down, and the summaries are the computed ones. */
  ghost predicate Formed(n: ExprNode)
    decreases n.identity
  {
    n.loose == LooseOf(n.data) && n.used == UsedOf(n.data)
    && forall c :: c in Children(n.data) ==> c.identity < n.identity && Formed(c)
  }

  /** The term a node stands for. (Only formed nodes are ever asked.) */
  ghost function Denote(n: ExprNode): Term
    decreases n.identity, 0
  {
    if !Formed(n) then BVar(0)
    else
      FormedChildren(n);
      match n.data
      case BVarD(i) => BVar(i)
      case SortD(l) => Sort(l)
      case ConstD(c, us) => Const(c, us)
      case LitD(lit) => Lit(lit)
      case AppD(f, x) => App(Denote(f), Denote(x))
      case LamD(bi, ty, body) => Lam(bi, Denote(ty), Denote(body))
      case PiD(bi, ty, body) => Pi(bi, Denote(ty), Denote(body))
      case LetD(ty, val, body) => Let(Denote(ty), Denote(val), Denote(body))
      case ProjD(s, i, v) => Proj(s, i, Denote(v))
  }

  lemma FormedChildren(n: ExprNode)
    requires Formed(n)
    ensures match n.data
            case AppD(f, x) => f.identity < n.identity && x.identity < n.identity && Formed(f) && Formed(x)
            case LamD(_, ty, body) =>
              ty.identity < n.identity && body.identity < n.identity && Formed(ty) && Formed(body)
            case PiD(_, ty, body) =>
              ty.identity < n.identity && body.identity < n.identity && Formed(ty) && Formed(body)
            case LetD(ty, val, body) =>
              ty.identity < n.identity && val.identity < n.identity && body.identity < n.identity && Formed(ty)
                && Formed(val) && Formed(body)
            case ProjD(_, _, v) => v.identity < n.identity && Formed(v)
            case _ => true
  {
    match n.data
    case AppD(f, x) => assert f in Children(n.data) && x in Children(n.data);
    case LamD(_, ty, body) => assert ty in Children(n.data) && body in Children(n.data);
    case PiD(_, ty, body) => assert ty in Children(n.data) && body in Children(n.data);
    case LetD(ty, val, body) => assert ty in Children(n.data) && val in Children(n.data) && body in Children(n.data);
    case ProjD(_, _, v) => assert v in Children(n.data);
    case _ =>
  }

  /** The cached summaries are the summaries of the term. */
  lemma {:induction false} SummariesExact(n: ExprNode)
    requires Formed(n)
    ensures n.loose == Loose(Denote(n)) && n.used == Used(Denote(n))
    decreases n.identity
  {
    FormedChildren(n);
    match n.data
    case AppD(f, x) => SummariesExact(f); SummariesExact(x);
    case LamD(_, ty, body) => SummariesExact(ty); SummariesExact(body);
    case PiD(_, ty, body) => SummariesExact(ty); SummariesExact(body);
    case LetD(ty, val, body) => SummariesExact(ty); SummariesExact(val); SummariesExact(body);
    case ProjD(_, _, v) => SummariesExact(v);
    case _ =>
  }

  /** Equality of nodes as the table tests it: payloads by value, children by reference. */
  predicate NodeEq(a: ExprData<ExprNode>, b: ExprData<ExprNode>) {
    match (a, b)
    case (BVarD(i), BVarD(j)) => i == j
    case (SortD(x), SortD(y)) => x == y
    case (ConstD(n, us), ConstD(m, vs)) => n == m && us == vs
    case (AppD(f, x), AppD(g, y)) => f == g && x == y
    case (LamD(b1, t1, x1), LamD(b2, t2, x2)) => b1 == b2 && t1 == t2 && x1 == x2
    case (PiD(b1, t1, x1), PiD(b2, t2, x2)) => b1 == b2 && t1 == t2 && x1 == x2
    case (LetD(t1, v1, b1), LetD(t2, v2, b2)) => t1 == t2 && v1 == v2 && b1 == b2
    case (ProjD(s1, i1, v1), ProjD(s2, i2, v2)) => s1 == s2 && i1 == i2 && v1 == v2
    case (LitD(x), LitD(y)) => x == y
    case _ => false
  }

  lemma NodeEqIsEq(a: ExprData<ExprNode>, b: ExprData<ExprNode>)
    ensures NodeEq(a, b) <==> a == b
  {}

  /** Structural comparison across interner generations, short-cut on equal references. */
  method RecExprEq(a: ExprNode, b: ExprNode) returns (r: bool)
    requires Formed(a) && Formed(b)
    ensures r <==> Denote(a) == Denote(b)
    decreases a.identity, 0
  {
    hide Formed;
    if a == b { return true; }
    FormedChildren(a);
    FormedChildren(b);
    match (a.data, b.data)
    case (BVarD(i), BVarD(j)) => r := i == j;
    case (SortD(x), SortD(y)) => r := x == y;
    case (ConstD(n, us), ConstD(m, vs)) => r := n == m && us == vs;
    case (AppD(f, x), AppD(g, y)) => r := RecPairEq(f, g, x, y);
    case (LamD(b1, t1, x1), LamD(b2, t2, x2)) =>
      r := b1 == b2;
      if r { r := RecPairEq(t1, t2, x1, x2); }
    case (PiD(b1, t1, x1), PiD(b2, t2, x2)) =>
      r := b1 == b2;
      if r { r := RecPairEq(t1, t2, x1, x2); }
    case (LetD(t1, v1, b1), LetD(t2, v2, b2)) =>
      r := RecPairEq(t1, t2, v1, v2);
      if r { r := RecExprEq(b1, b2); }
    case (ProjD(s1, i1, v1), ProjD(s2, i2, v2)) =>
      r := s1 == s2 && i1 == i2;
      if r { r := RecExprEq(v1, v2); }
    case (LitD(x), LitD(y)) => r := x == y;
    case _ => r := false;
  }

  method RecPairEq(a: ExprNode, b: ExprNode, c: ExprNode, d: ExprNode) returns (r: bool)
    requires Formed(a) && Formed(b) && Formed(c) && Formed(d)
    ensures r <==> Denote(a) == Denote(b) && Denote(c) == Denote(d)
    decreases MaxNat(a.identity, c.identity), 1
  {
    r := RecExprEq(a, b);
    if r { r := RecExprEq(c, d); }
  }
}
