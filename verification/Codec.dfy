/**
 A stored proof: the nodes of a term in post-order, each written once with its children
 by position, read back by building every node again.
 */
module Codec {
  import opened Terms
  import opened Nodes
  import opened ExprEngine
  import opened PostOrder
  import opened Wire
  import opened Streams
  import L = Levels

  // ---------------------------------------------------------------- encoding

  /** The position of `c`'s first occurrence. */
  ghost function Place(order: seq<ExprNode>, c: ExprNode): nat {
    if order == [] || order[0] == c then 0 else 1 + Place(order[1..], c)
  }

  lemma {:induction false} PlaceAt(order: seq<ExprNode>, k: nat)
    requires k < |order| && forall i, j :: 0 <= i < j < |order| ==> order[i] != order[j]
    ensures Place(order, order[k]) == k
  {
    if k > 0 {
      assert order[k] == order[1..][k - 1];
      PlaceAt(order[1..], k - 1);
    }
  }

  /** A layer with its children replaced by their positions. */
  ghost function Placed(d: ExprData<ExprNode>, order: seq<ExprNode>): ExprData<nat> {
    match d
    case BVarD(i) => BVarD(i)
    case SortD(l) => SortD(l)
    case ConstD(n, us) => ConstD(n, us)
    case LitD(lit) => LitD(lit)
    case AppD(f, x) => AppD(Place(order, f), Place(order, x))
    case LamD(bi, ty, body) => LamD(bi, Place(order, ty), Place(order, body))
    case PiD(bi, ty, body) => PiD(bi, Place(order, ty), Place(order, body))
    case LetD(ty, val, body) => LetD(Place(order, ty), Place(order, val), Place(order, body))
    case ProjD(s, i, v) => ProjD(s, i, Place(order, v))
  }

  ghost function Entries(order: seq<ExprNode>, k: nat): seq<Byte>
    requires k <= |order|
    decreases |order| - k
  {
    if k == |order| then [] else PutEntry(Placed(order[k].data, order)) + Entries(order, k + 1)
  }

  ghost function Blob(root: ExprNode): seq<Byte>
    requires Formed(root)
  {
    var order := Visit([], root);
    PutVarint(|order|) + Entries(order, 0)
  }

  /** The layer as the encoder looks its children up. */
  function LookedUp(d: ExprData<ExprNode>, index: map<nat, nat>): ExprData<nat>
    requires forall c :: c in Children(d) ==> c.identity in index
  {
    match d
    case BVarD(i) => BVarD(i)
    case SortD(l) => SortD(l)
    case ConstD(n, us) => ConstD(n, us)
    case LitD(lit) => LitD(lit)
    case AppD(f, x) => assert f in Children(d) && x in Children(d); AppD(index[f.identity], index[x.identity])
    case LamD(bi, ty, body) =>
      assert ty in Children(d) && body in Children(d);
      LamD(bi, index[ty.identity], index[body.identity])
    case PiD(bi, ty, body) =>
      assert ty in Children(d) && body in Children(d);
      PiD(bi, index[ty.identity], index[body.identity])
    case LetD(ty, val, body) =>
      assert ty in Children(d) && val in Children(d) && body in Children(d);
      LetD(index[ty.identity], index[val.identity], index[body.identity])
    case ProjD(s, i, v) => assert v in Children(d); ProjD(s, i, index[v.identity])
  }

  ghost predicate ChildrenIndexed(d: ExprData<ExprNode>, index: map<nat, nat>, order: seq<ExprNode>) {
    forall c :: c in Children(d) ==> c.identity in index && index[c.identity] == Place(order, c)
  }

  lemma LookupDefined(order: seq<ExprNode>, index: map<nat, nat>, k: nat)
    requires PostOrdered(order) && Indexed(index, order) && k < |order|
    ensures ChildrenIndexed(order[k].data, index, order)
  {
    forall c | c in Children(order[k].data) ensures c.identity in index && index[c.identity] == Place(order, c) {
      assert c in order[..k];
      var j :| 0 <= j < k && order[j] == c;
      PlaceAt(order, j);
    }
  }

  lemma LookedUpPlaced(d: ExprData<ExprNode>, index: map<nat, nat>, order: seq<ExprNode>)
    requires ChildrenIndexed(d, index, order)
    ensures LookedUp(d, index) == Placed(d, order)
  {
    hide Place;
    match d
    case AppD(f, x) => assert f in Children(d) && x in Children(d);
    case LamD(_, ty, body) => assert ty in Children(d) && body in Children(d);
    case PiD(_, ty, body) => assert ty in Children(d) && body in Children(d);
    case LetD(ty, val, body) => assert ty in Children(d) && val in Children(d) && body in Children(d);
    case ProjD(_, _, v) => assert v in Children(d);
    case _ =>
  }

  /** Every lookup of a child is defined, and the bytes are the post-order listing of the term. */
  method Encode(root: ExprNode, ghost nodes: Store, ghost next: nat) returns (bytes: seq<Byte>)
    requires StoreOk(nodes, next) && Known(nodes, root) && Formed(root)
    ensures bytes == Blob(root)
  {
    hide StoreOk, Formed, Visit, PostOrdered, Indexed, KnownAll, ReachSet, ChildrenIndexed, PutVarint, PutEntry, Placed,
         LookedUp;
    var order, index := OrderNodes(root, nodes, next);
    VisitExact(root);
    var out := new Output();
    out.Varint(|order|);
    for k := 0 to |order|
      invariant out.bytes + Entries(order, k) == Blob(root)
    {
      LookupDefined(order, index, k);
      LookedUpPlaced(order[k].data, index, order);
      ChildrenFound(order[k].data, index, order);
      out.Entry(LookedUp(order[k].data, index));
    }
    bytes := out.bytes;
  }

  lemma ChildrenFound(d: ExprData<ExprNode>, index: map<nat, nat>, order: seq<ExprNode>)
    requires ChildrenIndexed(d, index, order)
    ensures forall c :: c in Children(d) ==> c.identity in index
  {}

  // ---------------------------------------------------------------- decoding

  function DecodeFrom(s: seq<Byte>, pos: nat, pool: seq<Term>, left: nat): (r: Parsed<seq<Term>>)
    requires pos <= |s|
    ensures r.Got? ==> pos <= r.next <= |s| && |r.value| == |pool| + left
    decreases left
  {
    if left == 0 then Got(pool, pos)
    else
      var d := ReadEntry(s, pos, |pool|);
      if d.Bad? then Bad(d.error) else DecodeFrom(s, d.next, pool + [BuildTerm(d.value, pool)], left - 1)
  }

  function Decode(s: seq<Byte>): Read<Term> {
    var count := ReadVarint(s, 0);
    if count.Bad? then Fail(count.error)
    else if count.value == 0 then Fail(EmptyProof)
    else
      var pool := DecodeFrom(s, count.next, [], count.value);
      if pool.Bad? then Fail(pool.error)
      else if pool.next != |s| then Fail(TrailingBytes)
      else Value(pool.value[|pool.value| - 1])
  }

  /** The term with every level's smart constructors run again. */
  function RebuildTerm(e: Term): Term {
    match e
    case BVar(_) => e
    case Lit(_) => e
    case Sort(l) => Sort(RebuildLevel(l))
    case Const(n, us) => Const(n, RebuildLevels(us))
    case App(f, x) => App(RebuildTerm(f), RebuildTerm(x))
    case Lam(bi, ty, body) => Lam(bi, RebuildTerm(ty), RebuildTerm(body))
    case Pi(bi, ty, body) => Pi(bi, RebuildTerm(ty), RebuildTerm(body))
    case Let(ty, val, body) => Let(RebuildTerm(ty), RebuildTerm(val), RebuildTerm(body))
    case Proj(s, i, v) => Proj(s, i, RebuildTerm(v))
  }

  lemma RebuildLevelsExact(us: seq<L.Level>)
    ensures RebuildLevels(us) == us <==> CanonLevels(us)
  {
    hide RebuildLevel, L.Canon;
    forall k | 0 <= k < |us| ensures RebuildLevel(us[k]) == us[k] <==> L.Canon(us[k]) { RebuildExact(us[k]); }
    if CanonLevels(us) { assert RebuildLevels(us) == us; }
  }

  lemma {:induction false} RebuildTermExact(e: Term)
    ensures RebuildTerm(e) == e <==> CanonTerm(e)
  {
    hide RebuildLevel, RebuildLevels, L.Canon, CanonLevels;
    match e
    case Sort(l) => RebuildExact(l);
    case Const(_, us) => RebuildLevelsExact(us);
    case App(f, x) => RebuildTermExact(f); RebuildTermExact(x);
    case Lam(_, ty, body) => RebuildTermExact(ty); RebuildTermExact(body);
    case Pi(_, ty, body) => RebuildTermExact(ty); RebuildTermExact(body);
    case Let(ty, val, body) => RebuildTermExact(ty); RebuildTermExact(val); RebuildTermExact(body);
    case Proj(_, _, v) => RebuildTermExact(v);
    case _ =>
  }

  /** The rebuilt terms of the first `k` nodes. */
  ghost function Rebuilt(order: seq<ExprNode>, k: nat): (r: seq<Term>)
    requires k <= |order|
    ensures |r| == k && forall i :: 0 <= i < k ==> r[i] == RebuildTerm(Denote(order[i]))
  {
    seq(k, i requires 0 <= i < k => RebuildTerm(Denote(order[i])))
  }

  ghost predicate ShallowFrom(order: seq<ExprNode>, k: nat) {
    forall i :: k <= i < |order| ==> EntryShallow(order[i].data)
  }

  ghost predicate OrderFits(order: seq<ExprNode>) {
    |order| < U32 && forall i :: 0 <= i < |order| ==> Formed(order[i]) && EntryFits(order[i].data)
  }

  /** A child's position is before its parent's, and holds the child. */
  lemma PlacedBefore(order: seq<ExprNode>, k: nat, c: ExprNode)
    requires PostOrdered(order) && k < |order| && c in Children(order[k].data)
    ensures Place(order, c) < k && order[Place(order, c)] == c
  {
    assert c in order[..k];
    var j :| 0 <= j < k && order[j] == c;
    PlaceAt(order, j);
  }

  lemma PlacedChildren(order: seq<ExprNode>, k: nat)
    requires PostOrdered(order) && k < |order|
    ensures forall i :: i in Children(Placed(order[k].data, order)) ==> i < k
    ensures EntryFits(order[k].data) ==> EntryFits(Placed(order[k].data, order))
    ensures EntryShallow(Placed(order[k].data, order)) <==> EntryShallow(order[k].data)
  {
    hide PostOrdered, Place, LevelFits, LevelsFit, LevelsShallow, Height, NatBytes;
    var d := order[k].data;
    forall c | c in Children(d) ensures Place(order, c) < k { PlacedBefore(order, k, c); }
    match d
    case AppD(f, x) => assert f in Children(d) && x in Children(d);
    case LamD(_, ty, body) => assert ty in Children(d) && body in Children(d);
    case PiD(_, ty, body) => assert ty in Children(d) && body in Children(d);
    case LetD(ty, val, body) => assert ty in Children(d) && val in Children(d) && body in Children(d);
    case ProjD(_, _, v) => assert v in Children(d);
    case _ =>
  }

  /** Building an entry over the rebuilt earlier terms gives the node's rebuilt term. */
  lemma BuildPlaced(order: seq<ExprNode>, k: nat)
    requires PostOrdered(order) && k < |order| && Formed(order[k])
    ensures forall i :: i in Children(RebuildEntry(Placed(order[k].data, order))) ==> i < k
    ensures BuildTerm(RebuildEntry(Placed(order[k].data, order)), Rebuilt(order, k)) == RebuildTerm(Denote(order[k]))
  {
    PlacedChildren(order, k);
    var d := order[k].data;
    forall c | c in Children(d)
      ensures Place(order, c) < k && Rebuilt(order, k)[Place(order, c)] == RebuildTerm(Denote(c))
    {
      PlacedBefore(order, k, c);
    }
    FormedChildren(order[k]);
    BuildOver(order[k], order, Rebuilt(order, k));
  }

  /** The children of a layer are placed in the pool, as their rebuilt terms. */
  ghost predicate PlacedIn(d: ExprData<ExprNode>, order: seq<ExprNode>, pool: seq<Term>) {
    forall c :: c in Children(d) ==> Place(order, c) < |pool| && pool[Place(order, c)] == RebuildTerm(Denote(c))
  }

  lemma BuildOver(n: ExprNode, order: seq<ExprNode>, pool: seq<Term>)
    requires Formed(n) && PlacedIn(n.data, order, pool)
    ensures forall i :: i in Children(RebuildEntry(Placed(n.data, order))) ==> i < |pool|
    ensures BuildTerm(RebuildEntry(Placed(n.data, order)), pool) == RebuildTerm(Denote(n))
  {
    var d := n.data;
    if d.LamD? || d.PiD? || d.LetD? {
      BuildOverBinder(n, order, pool);
    } else {
      FormedChildren(n);
      hide Formed, Place, RebuildLevel, RebuildLevels;
      if d.AppD? { assert d.f in Children(d) && d.x in Children(d); }
      if d.ProjD? { assert d.v in Children(d); }
    }
  }

  lemma BuildOverBinder(n: ExprNode, order: seq<ExprNode>, pool: seq<Term>)
    requires Formed(n) && PlacedIn(n.data, order, pool) && (n.data.LamD? || n.data.PiD? || n.data.LetD?)
    ensures forall i :: i in Children(RebuildEntry(Placed(n.data, order))) ==> i < |pool|
    ensures BuildTerm(RebuildEntry(Placed(n.data, order)), pool) == RebuildTerm(Denote(n))
  {
    FormedChildren(n);
    hide Formed, Place;
    var d := n.data;
    assert d.ty in Children(d) && d.body in Children(d);
    if d.LetD? { assert d.val in Children(d); }
  }

  /** From entry `k` on, decoding appends the remaining rebuilt terms, or stops at the first too-deep level. */
  ghost predicate DecodesRest(order: seq<ExprNode>, k: nat, s: seq<Byte>, pos: nat)
    requires k <= |order| && pos <= |s|
  {
    DecodeFrom(s, pos, Rebuilt(order, k), |order| - k)
    == if ShallowFrom(order, k) then Got(Rebuilt(order, |order|), pos + |Entries(order, k)|) else Bad(LevelTooDeep)
  }

  lemma {:induction false} DecodeRest(order: seq<ExprNode>, k: nat, s: seq<Byte>, pos: nat)
    requires PostOrdered(order) && OrderFits(order) && k <= |order| && At(s, pos, Entries(order, k))
    ensures pos <= |s| && DecodesRest(order, k, s, pos)
    decreases |order| - k
  {
    hide PostOrdered, OrderFits, DecodesRest, EntryShallow, At, Entries, PutEntry, Placed, EntryStep;
    AtBounds(s, pos, Entries(order, k));
    if k == |order| {
      ListingEnd(order, s, pos);
    } else {
      EntryFacts(order, k, s, pos);
      var next := pos + |PutEntry(Placed(order[k].data, order))|;
      if EntryShallow(order[k].data) { DecodeRest(order, k + 1, s, next); }
      DecodeMore(order, k, s, pos, next);
    }
  }

  lemma DecodeMore(order: seq<ExprNode>, k: nat, s: seq<Byte>, pos: nat, next: nat)
    requires k < |order| && pos <= |s| && next <= |s| && EntryStep(order, k, s, pos, next)
    requires EntryShallow(order[k].data) ==> DecodesRest(order, k + 1, s, next)
    ensures DecodesRest(order, k, s, pos)
  {
    ShallowMore(order, k);
    hide EntryShallow, ShallowFrom, Entries, DecodeFrom, Rebuilt, RebuildTerm, Denote;
  }

  lemma ListingEnd(order: seq<ExprNode>, s: seq<Byte>, pos: nat)
    requires pos <= |s|
    ensures DecodesRest(order, |order|, s, pos)
  {}

  /** The entry for node `k` is read as written, up to `next`. */
  ghost predicate EntryStep(order: seq<ExprNode>, k: nat, s: seq<Byte>, pos: nat, next: nat)
    requires k < |order| && pos <= |s| && next <= |s|
  {
    pos + |Entries(order, k)| == next + |Entries(order, k + 1)|
    && DecodeFrom(s, pos, Rebuilt(order, k), |order| - k)
       == if EntryShallow(order[k].data) then DecodeFrom(s, next, Rebuilt(order, k + 1), |order| - (k + 1))
         else Bad(LevelTooDeep)
  }

  lemma EntryFacts(order: seq<ExprNode>, k: nat, s: seq<Byte>, pos: nat)
    requires PostOrdered(order) && OrderFits(order) && k < |order| && At(s, pos, Entries(order, k))
    ensures var next := pos + |PutEntry(Placed(order[k].data, order))|;
            pos <= |s| && next <= |s| && At(s, next, Entries(order, k + 1)) && EntryStep(order, k, s, pos, next)
  {
    hide At, PostOrdered, PutEntry, ReadEntry, EntryShallow, EntryFits, Placed, RebuildEntry, BuildTerm, RebuildTerm,
         Denote, Formed;
    var d := Placed(order[k].data, order);
    AtSplit(s, pos, PutEntry(d), Entries(order, k + 1));
    PlacedChildren(order, k);
    EntryRoundTrip(d, s, pos, k);
    BuildPlaced(order, k);
    RebuiltMore(order, k);
  }

  lemma RebuiltMore(order: seq<ExprNode>, k: nat)
    requires k < |order|
    ensures Rebuilt(order, k) + [RebuildTerm(Denote(order[k]))] == Rebuilt(order, k + 1)
  {
    hide RebuildTerm, Denote;
  }

  lemma ShallowMore(order: seq<ExprNode>, k: nat)
    requires k < |order|
    ensures ShallowFrom(order, k) <==> EntryShallow(order[k].data) && ShallowFrom(order, k + 1)
  {
    hide EntryShallow;
  }

  lemma ShallowAll(order: seq<ExprNode>, root: ExprNode)
    requires (forall m: ExprNode :: m in order ==> m in ReachSet(root))
             && (forall m: ExprNode :: m in ReachSet(root) ==> m in order)
    ensures ShallowFrom(order, 0) <==> Shallow(root)
  {
    hide EntryShallow;
    if ShallowFrom(order, 0) {
      forall m | m in ReachSet(root) ensures EntryShallow(m.data) { assert m in order; }
    }
    if Shallow(root) {
      forall i | 0 <= i < |order| ensures EntryShallow(order[i].data) { assert order[i] in order; }
    }
  }

  // -------------------------------------------------------------- round trip

  /** Fewer than 2^32 nodes, indices and names of 32 bits, lengths of 64, strings UTF-8. */
  ghost predicate Storable(root: ExprNode)
    requires Formed(root)
  {
    |Visit([], root)| < U32 && forall m: ExprNode :: m in ReachSet(root) ==> EntryFits(m.data)
  }

  ghost predicate Shallow(root: ExprNode) { forall m: ExprNode :: m in ReachSet(root) ==> EntryShallow(m.data) }

  lemma {:induction false} ReachFormed(n: ExprNode)
    requires Formed(n)
    ensures forall m: ExprNode :: m in ReachSet(n) ==> Formed(m)
    decreases n.identity
  {
    forall c | c in Children(n.data) ensures forall m: ExprNode :: m in ReachSet(c) ==> Formed(m) { ReachFormed(c); }
  }

  lemma VisitFits(root: ExprNode)
    requires Formed(root) && Storable(root)
    ensures var order := Visit([], root);
            PostOrdered(order) && OrderFits(order) && order != [] && order[|order| - 1] == root
            && (ShallowFrom(order, 0) <==> Shallow(root))
  {
    hide Visit, EntryFits, EntryShallow, Formed, PostOrdered;
    VisitExact(root);
    ReachFormed(root);
    ShallowAll(Visit([], root), root);
  }

  /** A whole listing decodes to the rebuilt term of its last node, or is refused for depth. */
  lemma DecodeListing(order: seq<ExprNode>, s: seq<Byte>)
    requires PostOrdered(order) && OrderFits(order) && 0 < |order| < U32 && s == PutVarint(|order|) + Entries(order, 0)
    ensures Decode(s) == if ShallowFrom(order, 0) then Value(RebuildTerm(Denote(order[|order| - 1])))
            else Fail(LevelTooDeep)
  {
    hide Entries, DecodeFrom, RebuildTerm, Denote, PutVarint, ReadVarint, PostOrdered, OrderFits, ShallowFrom;
    assert At(s, 0, PutVarint(|order|) + Entries(order, 0)) by { assert s[0..|s|] == s; }
    AtSplit(s, 0, PutVarint(|order|), Entries(order, 0));
    VarintRoundTrip(|order|, s, 0);
    assert Rebuilt(order, 0) == [];
    DecodeRest(order, 0, s, |PutVarint(|order|)|);
  }

  /** The encoded term comes back rebuilt, or is refused exactly when some level in it is too deep. */
  lemma RoundTrip(root: ExprNode)
    requires Formed(root) && Storable(root)
    ensures Decode(Blob(root)) == if Shallow(root) then Value(RebuildTerm(Denote(root))) else Fail(LevelTooDeep)
  {
    VisitFits(root);
    DecodeListing(Visit([], root), Blob(root));
    hide *;
  }

  /** The very term comes back if and only if its levels are shallow and built by the smart constructors. */
  lemma RoundTripExact(root: ExprNode)
    requires Formed(root) && Storable(root)
    ensures Decode(Blob(root)) == Value(Denote(root)) <==> Shallow(root) && CanonTerm(Denote(root))
  {
    hide Shallow, Storable, Decode, Blob, CanonTerm, RebuildTerm, Denote, Formed;
    RoundTrip(root);
    RebuildTermExact(Denote(root));
  }

  function Tower(n: nat): L.Level { if n == 0 then L.Zero else L.Succ(Tower(n - 1)) }

  lemma {:induction false} TowerFacts(n: nat)
    ensures Height(Tower(n)) == n && LevelFits(Tower(n)) && L.Canon(Tower(n))
  {
    if n > 0 { TowerFacts(n - 1); }
  }

  /** The depth limit: the sort of a canonical level of any height is written, and it comes back up to height 10,000
      and is refused from there on. */
  lemma DepthLimit(root: ExprNode, n: nat)
    requires Formed(root) && root.data == SortD(Tower(n))
    ensures Storable(root) && CanonTerm(Denote(root))
    ensures Decode(Blob(root)) == if n <= 10_000 then Value(Sort(Tower(n))) else Fail(LevelTooDeep)
  {
    TowerFacts(n);
    hide Tower, Height, LevelFits, L.Canon, Decode, Blob;
    assert Visit([], root) == [root];
    assert ReachSet(root) == {root};
    assert EntryShallow(root.data) <==> n <= 10_000;
    RoundTrip(root);
    RebuildTermExact(Denote(root));
  }
}
