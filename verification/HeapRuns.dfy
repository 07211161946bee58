/**
 Whole histories of the counted heap and its weak table: builds, copies, drops and
 collections in any order. What is held always stands for what the plain terms say, held
 references are equal exactly when their terms are, and no identity comes back.
 */
module HeapRuns {
  import opened Nodes
  import opened Reclaim
  import T = Terms

  /** Operands are positions in the list of held references; a build copies the references it needs. */
  datatype HeapOp = Make(d: ExprData<nat>) | Copy(k: nat) | Give(k: nat) | Sweep

  predicate InHeld(op: HeapOp, n: nat) {
    match op
    case Make(d) => forall i :: i in Children(d) ==> i < n
    case Copy(k) => k < n
    case Give(k) => k < n
    case Sweep => true
  }

  /** The same history on terms. */
  function RefHeapStep(held: seq<T.Term>, op: HeapOp): seq<T.Term> {
    if !InHeld(op, |held|) then held
    else
      match op
      case Make(d) => held + [BuildTerm(d, held)]
      case Copy(k) => held + [held[k]]
      case Give(k) => held[..k] + held[k + 1..]
      case Sweep => held
  }

  function RefHeapRun(held: seq<T.Term>, ops: seq<HeapOp>): seq<T.Term>
    decreases |ops|
  {
    if ops == [] then held else RefHeapRun(RefHeapStep(held, ops[0]), ops[1..])
  }

  ghost predicate AllLive(cells: Cells, held: seq<nat>) { forall k :: 0 <= k < |held| ==> held[k] in cells }

  ghost function Meanings(cells: Cells, next: nat, held: seq<nat>): (r: seq<T.Term>)
    requires Shaped(cells, next) && AllLive(cells, held)
    ensures |r| == |held| && forall k :: 0 <= k < |held| ==> r[k] == Meaning(cells, next, held[k])
  {
    seq(|held|, k requires 0 <= k < |held| => Meaning(cells, next, held[k]))
  }

  /** A cell that keeps its data keeps its meaning, whatever else was freed or added. */
  lemma {:induction false} MeaningKept(a: Cells, nextA: nat, b: Cells, nextB: nat, id: nat)
    requires Shaped(a, nextA) && Shaped(b, nextB) && id in a && id in b
    requires forall x :: x in a && x in b ==> a[x].data == b[x].data
    ensures Meaning(a, nextA, id) == Meaning(b, nextB, id)
    decreases id
  {
    var d := a[id].data;
    forall c | c in Children(d) ensures Meaning(a, nextA, c) == Meaning(b, nextB, c) {
      MeaningKept(a, nextA, b, nextB, c);
    }
    hide Shaped;
    match d
    case AppD(f, x) => assert f in Children(d) && x in Children(d);
    case LamD(_, ty, body) => assert ty in Children(d) && body in Children(d);
    case PiD(_, ty, body) => assert ty in Children(d) && body in Children(d);
    case LetD(ty, val, body) => assert ty in Children(d) && val in Children(d) && body in Children(d);
    case ProjD(_, _, v) => assert v in Children(d);
    case _ =>
  }

  lemma MeaningsKept(a: Cells, nextA: nat, b: Cells, nextB: nat, held: seq<nat>)
    requires Shaped(a, nextA) && Shaped(b, nextB) && AllLive(a, held) && AllLive(b, held)
    requires forall x :: x in a && x in b ==> a[x].data == b[x].data
    ensures Meanings(a, nextA, held) == Meanings(b, nextB, held)
  {
    forall k | 0 <= k < |held| ensures Meaning(a, nextA, held[k]) == Meaning(b, nextB, held[k]) {
      MeaningKept(a, nextA, b, nextB, held[k]);
    }
  }

  lemma HeldAllLive(cells: Cells, next: nat, held: seq<nat>)
    requires Shaped(cells, next) && Exact(cells, next, multiset(held))
    ensures AllLive(cells, held)
  {
    forall k | 0 <= k < |held| ensures held[k] in cells {
      assert held[k] in multiset(held);
      HeldLive(cells, next, multiset(held), held[k]);
    }
  }

  /** The cell built over held references stands for the term built over their terms. */
  lemma BuiltMeaning(cells: Cells, next: nat, held: seq<nat>, d: ExprData<nat>, id: nat)
    requires Shaped(cells, next) && AllLive(cells, held) && id in cells
    requires (forall i :: i in Children(d) ==> i < |held|) && cells[id].data == Pointed(d, held)
    ensures Meaning(cells, next, id) == BuildTerm(d, Meanings(cells, next, held))
  {
    match d
    case AppD(f, x) => assert f in Children(d) && x in Children(d);
    case LamD(_, ty, body) => assert ty in Children(d) && body in Children(d);
    case PiD(_, ty, body) => assert ty in Children(d) && body in Children(d);
    case LetD(ty, val, body) => assert ty in Children(d) && val in Children(d) && body in Children(d);
    case ProjD(_, _, v) => assert v in Children(d);
    case _ =>
  }

  /** Takes a copy of each of the given references. */
  method CopyAll(heap: WeakHeap, ids: seq<nat>)
    requires heap.Valid() && forall k :: 0 <= k < |ids| ==> ids[k] in heap.cells
    modifies heap`cells, heap`roots
    ensures heap.Valid() && heap.roots == old(heap.roots) + multiset(ids)
    ensures heap.cells.Keys == old(heap.cells).Keys
    ensures forall x :: x in heap.cells ==> heap.cells[x].data == old(heap.cells)[x].data
  {
    hide WeakHeap.Valid;
    for k := 0 to |ids|
      invariant heap.Valid() && heap.roots == old(heap.roots) + multiset(ids[..k])
      invariant heap.cells.Keys == old(heap.cells).Keys
      invariant forall x :: x in heap.cells ==> heap.cells[x].data == old(heap.cells)[x].data
    {
      assert ids[..k + 1] == ids[..k] + [ids[k]];
      heap.Clone(ids[k]);
    }
    assert ids[..|ids|] == ids;
  }

  ghost predicate Holding(heap: WeakHeap, held: seq<nat>)
    reads heap
  {
    heap.Valid() && heap.roots == multiset(held) && AllLive(heap.cells, held)
  }

  ghost function Said(heap: WeakHeap, held: seq<nat>): seq<T.Term>
    requires Holding(heap, held)
    reads heap
  {
    Meanings(heap.cells, heap.next, held)
  }

  method RunMake(heap: WeakHeap, held: seq<nat>, d: ExprData<nat>) returns (held': seq<nat>)
    requires Holding(heap, held) && forall i :: i in Children(d) ==> i < |held|
    modifies heap
    ensures Holding(heap, held') && Said(heap, held') == old(Said(heap, held)) + [BuildTerm(d, old(Said(heap, held)))]
    ensures held' == held + [held'[|held|]] && old(heap.next) <= heap.next
    ensures forall x :: x in heap.cells ==> x in old(heap.cells) || old(heap.next) <= x < heap.next
  {
    hide Shaped, Exact, Filed, BuildTerm, Meaning, Meanings, Children, Pointed;
    ghost var before, next0 := heap.cells, heap.next;
    var data := Pointed(d, held);
    PointedChildren(d, held);
    forall c | c in Children(data) ensures c in heap.cells {
      var j :| 0 <= j < |held| && held[j] == c;
    }
    CopyAll(heap, Children(data));
    assert heap.roots - multiset(Children(data)) == multiset(held);
    var id := heap.Intern(data);
    held' := held + [id];
    assert heap.roots == multiset(held');
    MadeSaid(before, next0, heap.cells, heap.next, held, d, id);
  }

  lemma MadeSaid(before: Cells, next0: nat, cells: Cells, next: nat, held: seq<nat>, d: ExprData<nat>, id: nat)
    requires Shaped(before, next0) && AllLive(before, held)
             && forall x :: x in before ==> x in cells && cells[x].data == before[x].data
    requires Shaped(cells, next) && Exact(cells, next, multiset(held + [id])) && id in cells
    requires (forall i :: i in Children(d) ==> i < |held|) && cells[id].data == Pointed(d, held)
    ensures AllLive(cells, held + [id])
    ensures Meanings(cells, next, held + [id])
            == Meanings(before, next0, held) + [BuildTerm(d, Meanings(before, next0, held))]
  {
    hide Shaped, Exact, BuildTerm, Meaning, Children, Pointed;
    HeldAllLive(cells, next, held + [id]);
    assert AllLive(cells, held);
    MeaningsKept(before, next0, cells, next, held);
    BuiltMeaning(cells, next, held, d, id);
  }

  lemma Without(cells: Cells, next: nat, held: seq<nat>, k: nat)
    requires Shaped(cells, next) && AllLive(cells, held) && k < |held|
    ensures var rest := held[..k] + held[k + 1..];
            k < |held| && held[k] in multiset(held) && multiset(rest) == multiset(held) - multiset{held[k]}
              && AllLive(cells, rest)
            && Meanings(cells, next, rest) == Meanings(cells, next, held)[..k] + Meanings(cells, next, held)[k + 1..]
  {
    hide *;
    WithoutRefs(held, k);
    WithoutMeanings(cells, next, held, k);
  }

  lemma WithoutRefs(held: seq<nat>, k: nat)
    requires k < |held|
    ensures held[k] in multiset(held) && multiset(held[..k] + held[k + 1..]) == multiset(held) - multiset{held[k]}
  {
    assert held == held[..k] + [held[k]] + held[k + 1..];
  }

  lemma WithoutMeanings(cells: Cells, next: nat, held: seq<nat>, k: nat)
    requires Shaped(cells, next) && AllLive(cells, held) && k < |held|
    ensures var rest := held[..k] + held[k + 1..];
            AllLive(cells, rest)
            && Meanings(cells, next, rest) == Meanings(cells, next, held)[..k] + Meanings(cells, next, held)[k + 1..]
  {
    hide Shaped, Meaning;
  }

  lemma ShrunkData(before: Cells, after: Cells)
    requires Shrinks(before, after)
    ensures forall x :: x in after ==> x in before && before[x].data == after[x].data
  {}

  method RunGive(heap: WeakHeap, held: seq<nat>, k: nat) returns (held': seq<nat>)
    requires Holding(heap, held) && k < |held|
    modifies heap
    ensures held' == held[..k] + held[k + 1..] && Holding(heap, held')
    ensures Said(heap, held') == old(Said(heap, held))[..k] + old(Said(heap, held))[k + 1..]
    ensures heap.next == old(heap.next) && forall x :: x in heap.cells ==> x in old(heap.cells)
  {
    hide Shaped, Exact, Filed, Meaning, Meanings, Reachable, AllLive;
    ghost var before := heap.cells;
    held' := held[..k] + held[k + 1..];
    Without(before, heap.next, held, k);
    heap.Drop(held[k]);
    HeldAllLive(heap.cells, heap.next, held');
    ShrunkData(before, heap.cells);
    MeaningsKept(before, heap.next, heap.cells, heap.next, held');
  }

  /** Any history computes what the terms compute; equal held references are exactly equal terms. */
  method Run(heap: WeakHeap, ops: seq<HeapOp>) returns (held: seq<nat>)
    requires heap.Valid() && heap.roots == multiset{}
    modifies heap
    ensures Holding(heap, held) && Said(heap, held) == RefHeapRun([], ops)
    ensures forall i, j :: 0 <= i < |held| && 0 <= j < |held| ==>
              (held[i] == held[j] <==> Said(heap, held)[i] == Said(heap, held)[j])
  {
    held := [];
    for n := 0 to |ops|
      invariant Holding(heap, held) && RefHeapRun(Said(heap, held), ops[n..]) == RefHeapRun([], ops)
    {
      assert ops[n..][1..] == ops[n + 1..];
      held := RunOp(heap, held, ops[n]);
    }
    forall i, j | 0 <= i < |held| && 0 <= j < |held|
      ensures held[i] == held[j] <==> Said(heap, held)[i] == Said(heap, held)[j]
    {
      LiveUnique(heap.cells, heap.next, heap.primary, heap.overflow, heap.hash, held[i], held[j]);
    }
  }

  method RunOp(heap: WeakHeap, held: seq<nat>, op: HeapOp) returns (held': seq<nat>)
    requires Holding(heap, held)
    modifies heap
    ensures Holding(heap, held') && Said(heap, held') == RefHeapStep(old(Said(heap, held)), op)
    ensures old(heap.next) <= heap.next
            && forall x :: x in heap.cells ==> x in old(heap.cells) || old(heap.next) <= x < heap.next
  {
    hide Shaped, Exact, Filed, Meaning, Meanings, BuildTerm, Children;
    held' := held;
    if InHeld(op, |held|) {
      match op {
        case Make(d) => held' := RunMake(heap, held, d);
        case Copy(k) => held' := RunCopy(heap, held, k);
        case Give(k) => held' := RunGive(heap, held, k);
        case Sweep => heap.Collect();
      }
    }
  }

  method RunCopy(heap: WeakHeap, held: seq<nat>, k: nat) returns (held': seq<nat>)
    requires Holding(heap, held) && k < |held|
    modifies heap
    ensures held' == held + [held[k]] && Holding(heap, held')
            && Said(heap, held') == old(Said(heap, held)) + [old(Said(heap, held))[k]]
    ensures heap.next == old(heap.next) && heap.cells.Keys == old(heap.cells).Keys
  {
    hide Shaped, Exact, Filed, Meaning;
    ghost var before := heap.cells;
    heap.Clone(held[k]);
    held' := held + [held[k]];
    MeaningsKept(before, heap.next, heap.cells, heap.next, held');
  }
}
