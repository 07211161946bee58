/** Reading a stored proof back into the engine: every node of the result is in the table. */
module Reload {
  import opened Terms
  import opened Nodes
  import opened ExprEngine
  import opened PostOrder
  import opened Wire
  import opened Streams
  import opened Codec

  lemma PointedDenotes(n: ExprNode, d: ExprData<nat>, pool: seq<ExprNode>)
    requires Formed(n) && (forall k :: k in Children(d) ==> k < |pool|) && n.data == Pointed(d, pool)
    ensures Denote(n) == BuildTerm(d, DenoteAll(pool))
  {
    hide Formed;
    FormedChildren(n);
    match d
    case AppD(f, x) => assert f in Children(d) && x in Children(d);
    case LamD(_, ty, body) => assert ty in Children(d) && body in Children(d);
    case PiD(_, ty, body) => assert ty in Children(d) && body in Children(d);
    case LetD(ty, val, body) => assert ty in Children(d) && val in Children(d) && body in Children(d);
    case ProjD(_, _, v) => assert v in Children(d);
    case _ =>
  }

  /** Everything in the pool, all the way down, is in the table. */
  ghost predicate AllInterned(nodes: Store, primary: map<nat, ExprNode>, overflow: map<nat, seq<ExprNode>>,
                              pool: seq<ExprNode>)
  {
    forall n :: n in pool ==> Known(nodes, n) && Formed(n) && Interned(primary, overflow, n)
  }

  lemma {:induction false} InternedGrows(nodes: Store, next: nat, primary: map<nat, ExprNode>, overflow: map<nat,
                                         seq<ExprNode>>,
                                         primary': map<nat, ExprNode>, overflow': map<nat, seq<ExprNode>>, n: ExprNode)
    requires StoreOk(nodes, next) && Known(nodes, n) && Formed(n) && Interned(primary, overflow, n)
    requires TableGrows(nodes, primary, overflow, primary', overflow')
    ensures Interned(primary', overflow', n)
    decreases n.identity
  {
    assert InTable(primary', overflow', nodes[n.identity]);
    forall c | c in Children(n.data) ensures Interned(primary', overflow', c) {
      InternedGrows(nodes, next, primary, overflow, primary', overflow', c);
    }
  }

  /** A node filed over interned children is interned, and what was interned stays so. */
  lemma AllInternedMore(nodes: Store, next: nat, nodes': Store, primary: map<nat, ExprNode>, overflow: map<nat,
                        seq<ExprNode>>,
                        primary': map<nat, ExprNode>, overflow': map<nat, seq<ExprNode>>, pool: seq<ExprNode>,
                          e: ExprNode)
    requires StoreOk(nodes, next) && Grows(nodes, nodes') && TableGrows(nodes, primary, overflow, primary', overflow')
    requires AllInterned(nodes, primary, overflow, pool)
    requires Known(nodes', e) && Formed(e) && InTable(primary', overflow', e)
             && forall c :: c in Children(e.data) ==> c in pool
    ensures AllInterned(nodes', primary', overflow', pool + [e])
  {
    forall n | n in pool ensures Interned(primary', overflow', n) {
      InternedGrows(nodes, next, primary, overflow, primary', overflow', n);
    }
  }

  method BuildInterned(engine: Engine, pool: seq<ExprNode>, d: ExprData<nat>) returns (e: ExprNode)
    requires engine.Valid() && AllInterned(engine.nodes, engine.primary, engine.overflow, pool)
    requires forall k :: k in Children(d) ==> k < |pool|
    modifies engine
    ensures engine.Valid() && Grows(old(engine.nodes), engine.nodes)
    ensures TableGrows(old(engine.nodes), old(engine.primary), old(engine.overflow), engine.primary, engine.overflow)
    ensures AllInterned(engine.nodes, engine.primary, engine.overflow, pool + [e])
    ensures Denote(e) == BuildTerm(d, DenoteAll(pool))
  {
    PointedChildren(d, pool);
    KnownLayer(engine.nodes, engine.primary, engine.overflow, pool, Pointed(d, pool));
    engine.Consistent();
    e := engine.Intern(Pointed(d, pool));
    engine.Consistent();
    hide Engine.Valid, AllInterned, StoreOk, TableGrows, Formed, Denote, BuildTerm, InTable;
    KnownParts(engine.nodes, engine.nextId, e);
    PointedDenotes(e, d, pool);
    AllInternedMore(old(engine.nodes), old(engine.nextId), engine.nodes, old(engine.primary), old(engine.overflow),
                    engine.primary, engine.overflow, pool, e);
  }

  lemma TableGrowsSelf(nodes: Store, primary: map<nat, ExprNode>, overflow: map<nat, seq<ExprNode>>)
    ensures TableGrows(nodes, primary, overflow, primary, overflow)
  {}

  lemma TableGrowsMore(nodes: Store, primary: map<nat, ExprNode>, overflow: map<nat, seq<ExprNode>>,
                       nodes1: Store, primary1: map<nat, ExprNode>, overflow1: map<nat, seq<ExprNode>>,
                       nodes2: Store, primary2: map<nat, ExprNode>, overflow2: map<nat, seq<ExprNode>>)
    requires Grows(nodes, nodes1) && TableGrows(nodes, primary, overflow, primary1, overflow1)
    requires Grows(nodes1, nodes2) && TableGrows(nodes1, primary1, overflow1, primary2, overflow2)
    ensures Grows(nodes, nodes2) && TableGrows(nodes, primary, overflow, primary2, overflow2)
  {
    hide InTable;
  }

  lemma EmptyInterned(nodes: Store, primary: map<nat, ExprNode>, overflow: map<nat, seq<ExprNode>>)
    ensures AllInterned(nodes, primary, overflow, [])
  {}

  lemma LastInterned(nodes: Store, primary: map<nat, ExprNode>, overflow: map<nat, seq<ExprNode>>, pool: seq<ExprNode>)
    requires AllInterned(nodes, primary, overflow, pool) && pool != []
    ensures var e := pool[|pool| - 1]; Known(nodes, e) && Formed(e) && Interned(primary, overflow, e)
  {}

  /** One decoded entry, on top of whatever grew since the start. */
  method DecodeStep(engine: Engine, pool: seq<ExprNode>, d: ExprData<nat>,
                    ghost nodes: Store, ghost primary: map<nat, ExprNode>, ghost overflow: map<nat, seq<ExprNode>>)
                      returns (e: ExprNode)
    requires engine.Valid() && AllInterned(engine.nodes, engine.primary, engine.overflow, pool)
    requires Grows(nodes, engine.nodes) && TableGrows(nodes, primary, overflow, engine.primary, engine.overflow)
    requires forall k :: k in Children(d) ==> k < |pool|
    modifies engine
    ensures engine.Valid() && AllInterned(engine.nodes, engine.primary, engine.overflow, pool + [e])
    ensures Grows(nodes, engine.nodes) && TableGrows(nodes, primary, overflow, engine.primary, engine.overflow)
    ensures Denote(e) == BuildTerm(d, DenoteAll(pool))
  {
    hide Engine.Valid, AllInterned, StoreOk, TableGrows, Grows, Formed, Denote, BuildTerm;
    e := BuildInterned(engine, pool, d);
    TableGrowsMore(nodes, primary, overflow, old(engine.nodes), old(engine.primary), old(engine.overflow),
                   engine.nodes, engine.primary, engine.overflow);
  }

  lemma KnownLayer(nodes: Store, primary: map<nat, ExprNode>, overflow: map<nat, seq<ExprNode>>, pool: seq<ExprNode>,
                   d: ExprData<ExprNode>)
    requires AllInterned(nodes, primary, overflow, pool) && forall c :: c in Children(d) ==> c in pool
    ensures KnownData(nodes, d)
  {}

  /** Rebuilds a stored term; agrees with `Decode` on every input, well formed or not. */
  method DecodeNode(engine: Engine, bytes: seq<Byte>) returns (r: Read<ExprNode>)
    requires engine.Valid()
    modifies engine
    ensures engine.Valid() && Grows(old(engine.nodes), engine.nodes)
    ensures TableGrows(old(engine.nodes), old(engine.primary), old(engine.overflow), engine.primary, engine.overflow)
    ensures match r
            case Value(e) =>
              Decode(bytes) == Value(Denote(e)) && Known(engine.nodes, e) && Formed(e)
                && Interned(engine.primary, engine.overflow, e)
            case Fail(x) => Decode(bytes) == Fail(x)
  {
    hide Engine.Valid, AllInterned, StoreOk, TableGrows, Grows, Formed, Denote, BuildTerm, ReadEntry, ReadVarint,
         Interned, Known;
    var reader := new Reader(bytes);
    GrowsSelf(engine.nodes);
    TableGrowsSelf(engine.nodes, engine.primary, engine.overflow);
    var count := reader.Varint();
    if count.Fail? { return Fail(count.error); }
    if count.value == 0 { return Fail(EmptyProof); }
    ghost var start := reader.pos;
    var pool: seq<ExprNode> := [];
    EmptyInterned(engine.nodes, engine.primary, engine.overflow);
    var left: nat := count.value;
    while left > 0
      invariant engine.Valid() && Grows(old(engine.nodes), engine.nodes) && reader.Valid()
      invariant TableGrows(old(engine.nodes), old(engine.primary), old(engine.overflow), engine.primary,
                           engine.overflow)
      invariant AllInterned(engine.nodes, engine.primary, engine.overflow, pool)
      invariant |pool| + left == count.value
      invariant DecodeFrom(bytes, reader.pos, DenoteAll(pool), left) == DecodeFrom(bytes, start, [], count.value)
    {
      var d := reader.Entry(|pool|);
      if d.Fail? { return Fail(d.error); }
      var e := DecodeStep(engine, pool, d.value, old(engine.nodes), old(engine.primary), old(engine.overflow));
      assert DenoteAll(pool + [e]) == DenoteAll(pool) + [Denote(e)];
      pool := pool + [e];
      left := left - 1;
    }
    if reader.pos != |bytes| { return Fail(TrailingBytes); }
    LastInterned(engine.nodes, engine.primary, engine.overflow, pool);
    r := Value(pool[|pool| - 1]);
  }
}
