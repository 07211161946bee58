/**
 Reference-counted expression cells: the iterative teardown that runs when a last
 reference goes, and the interner that keeps only weak references. A cell's children
 are older than it, so the heap is acyclic. `roots` are the strong references held
 outside the heap.
 */
module Reclaim {
  import opened Nodes
  import opened Tables
  import T = Terms

  type Data = ExprData<nat>

  datatype Cell = Cell(data: Data, strong: nat)

  type Cells = map<nat, Cell>

  // ------------------------------------------------------------ what counts

  function Refs(c: Cell): multiset<nat> { multiset(Children(c.data)) }

  /** All references from cells below `n` to their children, with multiplicity. */
  ghost function Edges(cells: Cells, n: nat): multiset<nat> {
    if n == 0 then multiset{}
    else if n - 1 in cells then Edges(cells, n - 1) + Refs(cells[n - 1])
    else Edges(cells, n - 1)
  }

  /** Children of live cells are live and older, and nobody keeps a cell at count zero. */
  ghost predicate Shaped(cells: Cells, next: nat) {
    forall id :: id in cells ==> id < next && cells[id].strong >= 1
                                 && forall c :: c in Children(cells[id].data) ==> c in cells && c < id
  }

  /** Every count is the number of references there are: `held` outside the heap, and the heap's own edges. */
  ghost predicate Exact(cells: Cells, next: nat, held: multiset<nat>) {
    (forall id :: id in held ==> id in cells)
    && forall id :: id in cells ==> cells[id].strong == held[id] + Edges(cells, next)[id]
  }

  /** There is a held reference for each of these, with multiplicity. */
  ghost predicate Owns(held: multiset<nat>, refs: seq<nat>) {
    forall c :: c in refs ==> multiset(refs)[c] <= held[c]
  }

  lemma OwnsAll(held: multiset<nat>, refs: seq<nat>)
    ensures Owns(held, refs) <==> multiset(refs) <= held
  {
    if Owns(held, refs) {
      forall c ensures multiset(refs)[c] <= held[c] { assert c in multiset(refs) <==> c in refs; }
    }
  }

  /** Reachable from the held references along child edges. */
  ghost predicate Reachable(cells: Cells, next: nat, held: multiset<nat>, id: nat)
    decreases next - id
  {
    id in held
    || exists p :: p in cells && id < p < next && id in Children(cells[p].data) && Reachable(cells, next, held, p)
  }

  /** `after` has some of the cells of `before`, with the same data. */
  ghost predicate Shrinks(before: Cells, after: Cells) {
    forall id :: id in after ==> id in before && after[id].data == before[id].data
  }

  lemma {:induction false} EdgesSame(a: Cells, b: Cells, n: nat)
    requires forall id :: id < n ==> (id in a <==> id in b)
    requires forall id :: id < n && id in a ==> a[id].data == b[id].data
    ensures Edges(a, n) == Edges(b, n)
  {
    if n > 0 { EdgesSame(a, b, n - 1); }
  }

  lemma {:induction false} EdgesWithout(cells: Cells, e: nat, n: nat)
    requires e in cells && e < n
    ensures Edges(cells, n) == Edges(cells - {e}, n) + Refs(cells[e])
  {
    if e == n - 1 {
      EdgesSame(cells, cells - {e}, n - 1);
    } else {
      EdgesWithout(cells, e, n - 1);
    }
  }

  lemma {:induction false} EdgeCounted(cells: Cells, n: nat, p: nat, id: nat)
    requires p in cells && p < n && id in Children(cells[p].data)
    ensures Edges(cells, n)[id] >= 1
  {
    if p == n - 1 { assert id in Refs(cells[p]); } else { EdgeCounted(cells, n - 1, p, id); }
  }

  lemma {:induction false} EdgeParent(cells: Cells, n: nat, id: nat) returns (p: nat)
    requires Edges(cells, n)[id] >= 1
    ensures p in cells && p < n && id in Children(cells[p].data)
  {
    if n - 1 in cells && id in Refs(cells[n - 1]) { p := n - 1; } else { p := EdgeParent(cells, n - 1, id); }
  }

  /** With exact counts nothing is garbage. */
  lemma {:induction false} NoGarbage(cells: Cells, next: nat, held: multiset<nat>, id: nat)
    requires Shaped(cells, next) && Exact(cells, next, held) && id in cells
    ensures Reachable(cells, next, held, id)
    decreases next - id
  {
    if id !in held {
      var p := EdgeParent(cells, next, id);
      NoGarbage(cells, next, held, p);
    }
  }

  lemma {:induction false} ReachableInLarger(before: Cells, after: Cells, next: nat, held: multiset<nat>, id: nat)
    requires Shrinks(before, after) && Reachable(after, next, held, id)
    ensures Reachable(before, next, held, id)
    decreases next - id
  {
    if id !in held {
      var p :| p in after && id < p < next && id in Children(after[p].data) && Reachable(after, next, held, p);
      ReachableInLarger(before, after, next, held, p);
    }
  }

  lemma {:induction false} ReachableSurvives(before: Cells, after: Cells, next: nat, held: multiset<nat>, id: nat)
    requires Shrinks(before, after) && Shaped(after, next) && Exact(after, next, held)
    requires Reachable(before, next, held, id)
    ensures id in after
    decreases next - id
  {
    if id !in held {
      var p :| p in before && id < p < next && id in Children(before[p].data) && Reachable(before, next, held, p);
      ReachableSurvives(before, after, next, held, p);
    }
  }

  /** Shrinking to exact counts leaves exactly what the held references reach. */
  lemma ExactlyReachable(before: Cells, after: Cells, next: nat, held: multiset<nat>)
    requires Shrinks(before, after) && Shaped(after, next) && Exact(after, next, held)
    ensures forall id :: id in after <==> Reachable(before, next, held, id)
  {
    forall id: nat ensures id in after <==> Reachable(before, next, held, id) {
      if id in after {
        NoGarbage(after, next, held, id);
        ReachableInLarger(before, after, next, held, id);
      } else if Reachable(before, next, held, id) {
        ReachableSurvives(before, after, next, held, id);
      }
    }
  }

  // ------------------------------------------------------- one step each way

  /** Taking one more reference. */
  lemma Increment(cells: Cells, next: nat, held: multiset<nat>, e: nat)
    requires Shaped(cells, next) && Exact(cells, next, held) && e in cells
    ensures var after := cells[e := Cell(cells[e].data, cells[e].strong + 1)];
            after.Keys == cells.Keys && Shrinks(cells, after) && Shaped(after, next)
              && Exact(after, next, held + multiset{e})
  {
    var after := cells[e := Cell(cells[e].data, cells[e].strong + 1)];
    EdgesSame(cells, after, next);
    ExactIncrement(cells, after, next, held, e);
    hide Edges, Reachable, Children, Exact;
    assert after.Keys == cells.Keys;
    ShapedSame(cells, after, next);
    hide Shaped;
  }

  lemma ShapedSame(cells: Cells, after: Cells, next: nat)
    requires Shaped(cells, next) && after.Keys == cells.Keys
    requires forall id :: id in cells ==> after[id].data == cells[id].data && after[id].strong >= 1
    ensures Shaped(after, next)
  {
    hide Children;
    forall id | id in after
      ensures id < next && after[id].strong >= 1 && forall c :: c in Children(after[id].data) ==> c in after && c < id
    { assert id in cells; }
  }

  lemma ExactIncrement(cells: Cells, after: Cells, next: nat, held: multiset<nat>, e: nat)
    requires Exact(cells, next, held) && e in cells && Edges(after, next) == Edges(cells, next)
    requires after == cells[e := Cell(cells[e].data, cells[e].strong + 1)]
    ensures Exact(after, next, held + multiset{e})
  {
    hide Edges;
  }

  /** Giving up one of several references. */
  lemma Decrement(cells: Cells, next: nat, held: multiset<nat>, e: nat)
    requires Shaped(cells, next) && Exact(cells, next, held) && e in held && cells[e].strong > 1
    ensures var after := cells[e := Cell(cells[e].data, cells[e].strong - 1)];
            Shaped(after, next) && Exact(after, next, held - multiset{e}) && Shrinks(cells, after) && |after| == |cells|
  {
    var after := cells[e := Cell(cells[e].data, cells[e].strong - 1)];
    EdgesSame(cells, after, next);
    ExactDecrement(cells, after, next, held, e);
    hide Edges, Reachable, Children, Exact;
    assert after.Keys == cells.Keys;
    ShapedSame(cells, after, next);
    hide Shaped;
  }

  lemma ExactDecrement(cells: Cells, after: Cells, next: nat, held: multiset<nat>, e: nat)
    requires Exact(cells, next, held) && e in held && cells[e].strong > 1 && Edges(after, next) == Edges(cells, next)
    requires after == cells[e := Cell(cells[e].data, cells[e].strong - 1)]
    ensures Exact(after, next, held - multiset{e})
  {
    hide Edges;
  }

  /** Giving up the last reference: the cell goes, its own references become ours to drop. */
  lemma Unwrap(cells: Cells, next: nat, held: multiset<nat>, e: nat)
    requires Shaped(cells, next) && Exact(cells, next, held) && e in held && cells[e].strong == 1
    ensures var after := cells - {e};
            Shaped(after, next) && Exact(after, next, held - multiset{e} + Refs(cells[e])) && Shrinks(cells, after)
              && |after| < |cells|
  {
    var after := cells - {e};
    var held' := held - multiset{e} + Refs(cells[e]);
    EdgesWithout(cells, e, next);
    assert held[e] == 1 && Edges(cells, next)[e] == 0;
    forall id, c | id in cells && c in Children(cells[id].data) ensures c != e {
      if c == e { EdgeCounted(cells, next, id, e); }
    }
    assert e !in Refs(cells[e]);
    forall id | id in held' ensures id in after {
      if id in Refs(cells[e]) { assert id in Children(cells[e].data); }
    }
    UnwrapExact(cells, after, next, held, held', e);
    hide Edges, Reachable, Children, Exact;
    assert after.Keys == cells.Keys - {e};
  }

  lemma UnwrapExact(cells: Cells, after: Cells, next: nat, held: multiset<nat>, held': multiset<nat>, e: nat)
    requires Exact(cells, next, held) && e in cells && after == cells - {e}
             && held' == held - multiset{e} + Refs(cells[e])
    requires Edges(cells, next) == Edges(after, next) + Refs(cells[e])
    requires forall id :: id in held' ==> id in after
    ensures Exact(after, next, held')
  {
    hide Edges, Refs;
  }

  /** A new cell takes over the references its data owned. */
  lemma Allocate(cells: Cells, next: nat, held: multiset<nat>, d: Data, held': multiset<nat>)
    requires Shaped(cells, next) && Exact(cells, next, held) && multiset(Children(d)) <= held
    requires held' == held - multiset(Children(d)) + multiset{next}
    ensures Shaped(cells[next := Cell(d, 1)], next + 1) && Exact(cells[next := Cell(d, 1)], next + 1, held')
  {
    hide Reachable, Children, Edges;
    NewEdges(cells, next, d);
    AllocateShaped(cells, next, held, d);
    hide Shaped;
    var owned := multiset(Children(d));
    var after := cells[next := Cell(d, 1)];
    var edges, edges' := Edges(cells, next), Edges(after, next + 1);
    forall id | id in after ensures after[id].strong == held'[id] + edges'[id] {
      if id == next {
        assert held[next] == 0 && owned[next] == 0;
      } else {
        assert held'[id] == held[id] - owned[id];
      }
    }
  }

  lemma AllocateShaped(cells: Cells, next: nat, held: multiset<nat>, d: Data)
    requires Shaped(cells, next) && Exact(cells, next, held) && multiset(Children(d)) <= held
    ensures Shaped(cells[next := Cell(d, 1)], next + 1)
  {
    hide Reachable, Children, Edges;
    var owned := multiset(Children(d));
    forall c | c in Children(d) ensures c in cells && c < next { assert c in owned; }
  }

  lemma NewEdges(cells: Cells, next: nat, d: Data)
    requires Shaped(cells, next)
    ensures next !in cells && Edges(cells, next)[next] == 0
    ensures Edges(cells[next := Cell(d, 1)], next + 1) == Edges(cells, next) + multiset(Children(d))
  {
    EdgesSame(cells, cells[next := Cell(d, 1)], next);
    if Edges(cells, next)[next] >= 1 { var p := EdgeParent(cells, next, next); }
  }

  // ------------------------------------------------------- the weak interner

  /** Entries may be dead; every live cell is filed under its hash, and no two live cells have the same data. */
  ghost predicate Filed(cells: Cells, next: nat, primary: map<nat, nat>, overflow: map<nat, seq<nat>>,
                        hash: Data -> nat)
  {
    (forall h :: h in primary ==> primary[h] < next)
    && (forall h, id :: h in overflow && id in overflow[h] ==> id < next)
    && (forall id :: id in cells ==> FiledAt(primary, overflow, hash(cells[id].data), id))
    && (forall i, j :: i in cells && j in cells && cells[i].data == cells[j].data ==> i == j)
  }

  ghost predicate FiledAt(primary: map<nat, nat>, overflow: map<nat, seq<nat>>, h: nat, id: nat) {
    (h in primary && primary[h] == id) || (h in overflow && id in overflow[h])
  }

  function Retain(bucket: seq<nat>, cells: Cells): (r: seq<nat>)
    ensures forall id :: id in r <==> id in bucket && id in cells
  {
    if bucket == [] then []
    else if bucket[0] in cells then [bucket[0]] + Retain(bucket[1..], cells)
    else Retain(bucket[1..], cells)
  }

  /** The term a live cell stands for. */
  ghost function Meaning(cells: Cells, next: nat, id: nat): T.Term
    requires Shaped(cells, next) && id in cells
    decreases id
  {
    var d := cells[id].data;
    match d
    case BVarD(i) => T.BVar(i)
    case SortD(l) => T.Sort(l)
    case ConstD(c, us) => T.Const(c, us)
    case LitD(lit) => T.Lit(lit)
    case AppD(f, x) =>
      assert f in Children(d) && x in Children(d);
      T.App(Meaning(cells, next, f), Meaning(cells, next, x))
    case LamD(bi, ty, body) =>
      assert ty in Children(d) && body in Children(d); T.Lam(bi, Meaning(cells, next, ty), Meaning(cells, next, body))
    case PiD(bi, ty, body) =>
      assert ty in Children(d) && body in Children(d); T.Pi(bi, Meaning(cells, next, ty), Meaning(cells, next, body))
    case LetD(ty, val, body) =>
      assert ty in Children(d) && val in Children(d) && body in Children(d);
      T.Let(Meaning(cells, next, ty), Meaning(cells, next, val), Meaning(cells, next, body))
    case ProjD(s, i, v) => assert v in Children(d); T.Proj(s, i, Meaning(cells, next, v))
  }

  /** Live cells stand for the same term if and only if they are the same cell. */
  lemma {:induction false} LiveUnique(cells: Cells, next: nat, primary: map<nat, nat>, overflow: map<nat, seq<nat>>,
                                      hash: Data -> nat, i: nat, j: nat)
    requires Shaped(cells, next) && Filed(cells, next, primary, overflow, hash) && i in cells && j in cells
    ensures Meaning(cells, next, i) == Meaning(cells, next, j) <==> i == j
    decreases i
  {
    hide Filed;
    if Meaning(cells, next, i) == Meaning(cells, next, j) {
      match (cells[i].data, cells[j].data) {
        case (AppD(f, x), AppD(g, y)) =>
          SamePart(cells, next, primary, overflow, hash, i, j, f, g);
          SamePart(cells, next, primary, overflow, hash, i, j, x, y);
        case (LamD(_, t, x), LamD(_, u, y)) =>
          SamePart(cells, next, primary, overflow, hash, i, j, t, u);
          SamePart(cells, next, primary, overflow, hash, i, j, x, y);
        case (PiD(_, t, x), PiD(_, u, y)) =>
          SamePart(cells, next, primary, overflow, hash, i, j, t, u);
          SamePart(cells, next, primary, overflow, hash, i, j, x, y);
        case (LetD(t, v, x), LetD(u, w, y)) =>
          SamePart(cells, next, primary, overflow, hash, i, j, t, u);
          SamePart(cells, next, primary, overflow, hash, i, j, v, w);
          SamePart(cells, next, primary, overflow, hash, i, j, x, y);
        case (ProjD(_, _, v), ProjD(_, _, w)) => SamePart(cells, next, primary, overflow, hash, i, j, v, w);
        case _ =>
      }
      SameData(cells, next, primary, overflow, hash, i, j);
    }
  }

  lemma SameData(cells: Cells, next: nat, primary: map<nat, nat>, overflow: map<nat, seq<nat>>, hash: Data -> nat,
                 i: nat, j: nat)
    requires Filed(cells, next, primary, overflow, hash) && i in cells && j in cells
    ensures cells[i].data == cells[j].data ==> i == j
  {}

  lemma {:induction false} SamePart(cells: Cells, next: nat, primary: map<nat, nat>, overflow: map<nat, seq<nat>>,
                                    hash: Data -> nat,
                                    i: nat, j: nat, c: nat, d: nat)
    requires Shaped(cells, next) && Filed(cells, next, primary, overflow, hash) && i in cells && j in cells
    requires c in Children(cells[i].data) && d in Children(cells[j].data)
    requires c in cells && d in cells && Meaning(cells, next, c) == Meaning(cells, next, d)
    ensures c == d
    decreases i, 0
  {
    hide Filed, Meaning;
    LiveUnique(cells, next, primary, overflow, hash, c, d);
  }

  class WeakHeap {
    const hash: Data -> nat
    var cells: Cells
    var next: nat
    var primary: map<nat, nat>
    var overflow: map<nat, seq<nat>>
    var nextCollection: nat
    /** Strong references held outside the heap. */
    ghost var roots: multiset<nat>

    ghost predicate Valid()
      reads this`cells, this`next, this`primary, this`overflow, this`roots
    {
      Shaped(cells, next) && Exact(cells, next, roots) && Filed(cells, next, primary, overflow, hash)
    }

    constructor (hash: Data -> nat)
      ensures Valid() && roots == multiset{} && cells == map[] && this.hash == hash
    {
      this.hash := hash;
      cells, next, primary, overflow, nextCollection := map[], 1, map[], map[], 250_000;
      roots := multiset{};
    }

    /** Another reference to a live node. */
    method Clone(id: nat)
      requires Valid() && id in cells
      modifies this`cells, this`roots
      ensures Valid() && roots == old(roots) + multiset{id}
      ensures cells == old(cells)[id := Cell(old(cells)[id].data, old(cells)[id].strong + 1)]
    {
      hide Filed, Shaped, Exact, Edges, Reachable, Children, Shrinks;
      var before := cells;
      Increment(cells, next, roots, id);
      cells := cells[id := Cell(cells[id].data, cells[id].strong + 1)];
      roots := roots + multiset{id};
      FiledSame(before, cells, next, primary, overflow, hash);
    }

    /** Drops one held reference. When it was the last, the node's children go on a worklist and the
        teardown never recurses. What is left is exactly what the remaining references reach. */
    method Drop(id: nat)
      requires Valid() && id in roots
      modifies this`cells, this`roots
      ensures Valid() && roots == old(roots) - multiset{id}
      ensures Shrinks(old(cells), cells)
      ensures forall x :: x in cells <==> Reachable(old(cells), next, roots, x)
      ensures old(cells)[id].strong > 1 ==>
                cells == old(cells)[id := Cell(old(cells)[id].data, old(cells)[id].strong - 1)]
    {
      hide Edges, Reachable, Filed, Shaped, Exact, Shrinks, Children;
      var before := cells;
      ghost var left := roots - multiset{id};
      HeldLive(cells, next, roots, id);
      var stack := GiveUp(id);
      ghost var middle := cells;
      Teardown(stack, left);
      ShrinksTrans(before, middle, cells);
      FiledShrinks(before, cells, next, primary, overflow, hash);
      roots := left;
      ExactlyReachable(before, cells, next, roots);
    }

    /** The first step of a drop: what is left to tear down. */
    method GiveUp(id: nat) returns (stack: seq<nat>)
      requires Shaped(cells, next) && Exact(cells, next, roots) && id in roots && id in cells
      modifies this`cells
      ensures Shaped(cells, next) && Exact(cells, next, roots - multiset{id} + multiset(stack))
              && Shrinks(old(cells), cells)
      ensures old(cells)[id].strong > 1 ==>
                stack == [] && cells == old(cells)[id := Cell(old(cells)[id].data, old(cells)[id].strong - 1)]
    {
      hide *;
      HeldLive(cells, next, roots, id);
      if cells[id].strong > 1 {
        Decrement(cells, next, roots, id);
        cells := cells[id := Cell(cells[id].data, cells[id].strong - 1)];
        stack := [];
        assert roots - multiset{id} + multiset(stack) == roots - multiset{id};
      } else {
        Unwrap(cells, next, roots, id);
        RefsAre(cells[id]);
        stack := Children(cells[id].data);
        cells := cells - {id};
      }
    }

    method Teardown(children: seq<nat>, ghost left: multiset<nat>)
      requires Shaped(cells, next) && Exact(cells, next, left + multiset(children))
      modifies this`cells
      ensures Shaped(cells, next) && Exact(cells, next, left) && Shrinks(old(cells), cells)
      ensures children == [] ==> cells == old(cells)
    {
      hide *;
      var stack := children;
      ShrinksSelf(cells);
      while stack != []
        invariant Shaped(cells, next) && Exact(cells, next, left + multiset(stack)) && Shrinks(old(cells), cells)
        invariant children == [] ==> stack == [] && cells == old(cells)
        decreases |cells|, |stack|
      {
        ghost var before := cells;
        stack := PopOne(stack, left);
        ShrinksTrans(old(cells), before, cells);
      }
      assert left + multiset(stack) == left;
    }

    /** One step of the worklist: a last reference frees its cell and queues its children, another one
        is just given up. */
    method PopOne(stack: seq<nat>, ghost left: multiset<nat>) returns (stack': seq<nat>)
      requires stack != [] && Shaped(cells, next) && Exact(cells, next, left + multiset(stack))
      modifies this`cells
      ensures Shaped(cells, next) && Exact(cells, next, left + multiset(stack')) && Shrinks(old(cells), cells)
      ensures |cells| < |old(cells)| || (|cells| == |old(cells)| && |stack'| < |stack|)
    {
      hide *;
      var e := stack[|stack| - 1];
      ghost var held := left + multiset(stack);
      stack' := stack[..|stack| - 1];
      assert stack == stack' + [e];
      assert held - multiset{e} == left + multiset(stack');
      assert e in held;
      HeldLive(cells, next, held, e);
      var data := cells[e].data;
      if cells[e].strong == 1 {
        Unwrap(cells, next, held, e);
        RefsAre(cells[e]);
        cells := cells - {e};
        assert held - multiset{e} + multiset(Children(data)) == left + multiset(stack' + Children(data));
        stack' := stack' + Children(data);
      } else {
        Decrement(cells, next, held, e);
        cells := cells[e := Cell(data, cells[e].strong - 1)];
      }
    }

    /** How many entries the table has, live or dead. */
    method Len() returns (n: nat)
      ensures n == EntryCount(primary, overflow)
    {
      n := CountEntries(primary, overflow);
    }

    /** Forgets dead entries; no live node loses its entry. */
    method Collect()
      requires Valid()
      modifies this`primary, this`overflow
      ensures Valid()
      ensures forall h :: h in primary ==> primary[h] in cells
      ensures forall h, id :: h in overflow && id in overflow[h] ==> id in cells
    {
      hide Shaped, Exact;
      primary := map h | h in primary && primary[h] in cells :: primary[h];
      overflow := map h | h in overflow && Retain(overflow[h], cells) != [] :: Retain(overflow[h], cells);
      forall id | id in cells ensures FiledAt(primary, overflow, hash(cells[id].data), id) {
        var h := hash(cells[id].data);
        assert FiledAt(old(primary), old(overflow), h, id);
        if h in old(overflow) && id in old(overflow)[h] { assert id in Retain(old(overflow)[h], cells); }
      }
    }

    /** The live node with this data, if there is one; otherwise a new one under an identity never used
        before. The caller's references to the children pass to the node. */
    method Intern(d: Data) returns (id: nat)
      requires Valid() && Owns(roots, Children(d))
      modifies this
      ensures Valid() && roots == old(roots) - multiset(Children(d)) + multiset{id}
      ensures id in cells && cells[id].data == d
      ensures forall x :: x in old(cells) ==> x in cells && cells[x].data == old(cells)[x].data
      ensures forall x :: x in old(cells) && old(cells)[x].data == d ==>
                id == x && next == old(next) && cells.Keys == old(cells).Keys
      ensures (forall x :: x in old(cells) ==> old(cells)[x].data != d) ==>
                id == old(next) && next == old(next) + 1 && cells.Keys == old(cells).Keys + {id}
    {
      hide *;
      MaybeCollect();
      var found := Find(d);
      if found.Some? {
        id := found.value;
        Hit(d, id);
      } else {
        id := Alloc(d);
      }
    }

    /** Collects when the table has reached the mark, and moves the mark. */
    method MaybeCollect()
      requires Valid()
      modifies this`primary, this`overflow, this`nextCollection
      ensures Valid()
      ensures if EntryCount(old(primary), old(overflow)) < old(nextCollection)
              then primary == old(primary) && overflow == old(overflow) && nextCollection == old(nextCollection)
              else nextCollection == EntryCount(primary, overflow) + 250_000
                   && (forall h :: h in primary ==> primary[h] in cells)
                   && forall h, id :: h in overflow && id in overflow[h] ==> id in cells
    {
      hide *;
      var n := Len();
      if n >= nextCollection {
        Collect();
        n := Len();
        nextCollection := n + 250_000;
      }
    }

    /** Hands out another reference to the node found, and drops the data it was looked up by. */
    method Hit(d: Data, id: nat)
      requires Valid() && id in cells && cells[id].data == d && Owns(roots, Children(d))
      modifies this`cells, this`roots
      ensures Valid() && roots == old(roots) - multiset(Children(d)) + multiset{id}
      ensures cells.Keys == old(cells).Keys && forall x :: x in cells ==> cells[x].data == old(cells)[x].data
    {
      hide *;
      ghost var owned := multiset(Children(d));
      OwnsAll(roots, Children(d));
      SwapRefs(roots, owned, id);
      OwnsAll(roots + multiset{id}, Children(d));
      Clone(id);
      DropData(d, id);
    }

    method Find(d: Data) returns (r: T.Option<nat>)
      requires Valid()
      ensures r.Some? ==> r.value in cells && cells[r.value].data == d
      ensures r.None? ==> forall x :: x in cells ==> cells[x].data != d
      ensures r.Some? ==> forall x :: x in cells && cells[x].data == d ==> x == r.value
    {
      hide Shaped, Exact, Edges;
      var h := hash(d);
      if h in primary && primary[h] in cells && cells[primary[h]].data == d { return T.Some(primary[h]); }
      if h in overflow {
        for k := 0 to |overflow[h]|
          invariant forall i :: 0 <= i < k ==> !(overflow[h][i] in cells && cells[overflow[h][i]].data == d)
        {
          var id := overflow[h][k];
          if id in cells && cells[id].data == d { return T.Some(id); }
        }
      }
      r := T.None;
      forall x | x in cells ensures cells[x].data != d {
        assert FiledAt(primary, overflow, hash(cells[x].data), x);
      }
    }

    /** The data of a hit is dropped: its node holds the same children, so nothing is freed. */
    method DropData(d: Data, id: nat)
      requires Valid() && id in cells && cells[id].data == d && Owns(roots, Children(d))
      modifies this`cells, this`roots
      ensures Valid() && roots == old(roots) - multiset(Children(d))
      ensures cells.Keys == old(cells).Keys && forall x :: x in cells ==> cells[x].data == old(cells)[x].data
    {
      hide *;
      DropAll(d, id, Children(d));
    }

    method DropAll(ghost d: Data, ghost id: nat, children: seq<nat>)
      requires Valid() && id in cells && cells[id].data == d && Owns(roots, children)
      requires forall c :: c in children ==> c in Children(d)
      modifies this`cells, this`roots
      ensures Valid() && roots == old(roots) - multiset(children)
      ensures cells.Keys == old(cells).Keys && forall x :: x in cells ==> cells[x].data == old(cells)[x].data
      decreases |children|
    {
      hide *;
      if children != [] {
        var c, rest := children[0], children[1..];
        assert children == [c] + rest;
        assert multiset(children) == multiset{c} + multiset(rest);
        OwnsAll(roots, children);
        OwnsAll(roots - multiset{c}, rest);
        DropOne(d, id, c);
        DropAll(d, id, rest);
      }
    }

    method DropOne(ghost d: Data, ghost id: nat, c: nat)
      requires Valid() && id in cells && cells[id].data == d && c in Children(d) && c in roots
      modifies this`cells, this`roots
      ensures Valid() && roots == old(roots) - multiset{c}
      ensures cells.Keys == old(cells).Keys && forall x :: x in cells ==> cells[x].data == old(cells)[x].data
    {
      hide Edges, Reachable, Filed, Shaped, Exact, Children;
      SharedChild(cells, next, roots, id, c);
      Drop(c);
    }

    method Alloc(d: Data) returns (id: nat)
      requires Valid() && Owns(roots, Children(d))
      requires forall x :: x in cells ==> cells[x].data != d
      modifies this`cells, this`roots, this`next, this`primary, this`overflow
      ensures Valid() && roots == old(roots) - multiset(Children(d)) + multiset{id}
      ensures id == old(next) && next == old(next) + 1 && cells == old(cells)[id := Cell(d, 1)]
      ensures id !in old(cells)
    {
      hide *;
      FreshId();
      id := next;
      ghost var held := roots - multiset(Children(d)) + multiset{id};
      OwnsAll(roots, Children(d));
      Allocate(cells, next, roots, d, held);
      FileAs(d);
      cells := cells[id := Cell(d, 1)];
      next := next + 1;
      roots := held;
      BecomesValid();
    }

    /** Files the identity about to be used. */
    method FileAs(d: Data)
      requires Filed(cells, next, primary, overflow, hash) && next !in cells
               && forall x :: x in cells ==> cells[x].data != d
      modifies this`primary, this`overflow
      ensures Filed(cells[next := Cell(d, 1)], next + 1, primary, overflow, hash)
    {
      hide *;
      var h := hash(d);
      FileAdded(cells, next, primary, overflow, hash, d);
      if h in primary && primary[h] in cells {
        overflow := overflow[h := (if h in overflow then overflow[h] else []) + [next]];
      } else {
        primary := primary[h := next];
      }
    }

    lemma FreshId()
      requires Valid()
      ensures next !in cells && Shaped(cells, next) && Exact(cells, next, roots)
              && Filed(cells, next, primary, overflow, hash)
    {}

    lemma BecomesValid()
      requires Shaped(cells, next) && Exact(cells, next, roots) && Filed(cells, next, primary, overflow, hash)
      ensures Valid()
    {}
  }

  /** A new cell is filed first under its hash if the first entry is dead or missing, in the overflow otherwise. */
  lemma FileAdded(cells: Cells, next: nat, primary: map<nat, nat>, overflow: map<nat, seq<nat>>, hash: Data -> nat,
                  d: Data)
    requires Filed(cells, next, primary, overflow, hash) && next !in cells
    requires forall x :: x in cells ==> cells[x].data != d
    ensures var h := hash(d);
            var after := cells[next := Cell(d, 1)];
            if h in primary && primary[h] in cells then
              Filed(after, next + 1, primary, overflow[h := (if h in overflow then overflow[h] else []) + [next]], hash)
            else Filed(after, next + 1, primary[h := next], overflow, hash)
  {
    var h := hash(d);
    var after := cells[next := Cell(d, 1)];
    if h in primary && primary[h] in cells {
      var bucket: seq<nat> := if h in overflow then overflow[h] else [];
      var o: map<nat, seq<nat>> := overflow[h := bucket + [next]];
      assert next in o[h];
      forall x | x in after ensures FiledAt(primary, o, hash(after[x].data), x) {
        if x != next { assert FiledAt(primary, overflow, hash(cells[x].data), x); }
      }
    } else {
      var p := primary[h := next];
      forall x | x in after ensures FiledAt(p, overflow, hash(after[x].data), x) {
        if x != next { assert FiledAt(primary, overflow, hash(cells[x].data), x); }
      }
    }
  }

  lemma HeldLive(cells: Cells, next: nat, held: multiset<nat>, e: nat)
    requires Shaped(cells, next) && Exact(cells, next, held) && e in held
    ensures e in cells && cells[e].strong >= 1
  {}

  lemma SwapRefs(held: multiset<nat>, owned: multiset<nat>, id: nat)
    requires owned <= held
    ensures owned <= held + multiset{id} && held + multiset{id} - owned == held - owned + multiset{id}
  {}

  lemma RefsAre(c: Cell)
    ensures Refs(c) == multiset(Children(c.data))
  {}

  lemma ShrinksSelf(cells: Cells)
    ensures Shrinks(cells, cells)
  {}

  lemma ShrinksTrans(a: Cells, b: Cells, c: Cells)
    requires Shrinks(a, b) && Shrinks(b, c)
    ensures Shrinks(a, c)
  {}

  lemma SharedChild(cells: Cells, next: nat, held: multiset<nat>, id: nat, c: nat)
    requires Shaped(cells, next) && Exact(cells, next, held) && id in cells && c in Children(cells[id].data)
             && c in held
    ensures c in cells && cells[c].strong > 1
  {
    EdgeCounted(cells, next, id, c);
  }

  lemma FiledSame(before: Cells, after: Cells, next: nat, primary: map<nat, nat>, overflow: map<nat, seq<nat>>,
                  hash: Data -> nat)
    requires Filed(before, next, primary, overflow, hash) && after.Keys == before.Keys && Shrinks(before, after)
    ensures Filed(after, next, primary, overflow, hash)
  {}

  lemma FiledShrinks(before: Cells, after: Cells, next: nat, primary: map<nat, nat>, overflow: map<nat, seq<nat>>,
                     hash: Data -> nat)
    requires Filed(before, next, primary, overflow, hash) && Shrinks(before, after)
    ensures Filed(after, next, primary, overflow, hash)
  {}
}
