/**
 The order in which a term's nodes are written: depth first, children before parents,
 every shared node once. The explicit-stack loop is proved to compute the recursive visit.
 */
module PostOrder {
  import opened Terms
  import opened Nodes
  import opened ExprEngine

  /** Everything reachable from `n`, itself included. */
  ghost function ReachSet(n: ExprNode): set<ExprNode>
    decreases n.identity
  {
    {n} + set c, m | c in Children(n.data) && c.identity < n.identity && m in ReachSet(c) :: m
  }

  ghost function Visit(order: seq<ExprNode>, n: ExprNode): seq<ExprNode>
    requires Formed(n)
    decreases n.identity
  {
    if n in order then order else VisitAll(order, Children(n.data), n.identity) + [n]
  }

  ghost function VisitAll(order: seq<ExprNode>, cs: seq<ExprNode>, bound: nat): seq<ExprNode>
    requires forall c :: c in cs ==> Formed(c) && c.identity < bound
    decreases bound, |cs|
  {
    if cs == [] then order else VisitAll(Visit(order, cs[0]), cs[1..], bound)
  }

  // ------------------------------------------------- what the visit produces

  /** No node twice, and every child before its parents. */
  ghost predicate PostOrdered(order: seq<ExprNode>) {
    (forall i, j :: 0 <= i < j < |order| ==> order[i] != order[j])
    && forall i, c :: 0 <= i < |order| && c in Children(order[i].data) ==> c in order[..i]
  }

  lemma ReachStep(n: ExprNode, c: ExprNode)
    requires Formed(n) && c in Children(n.data)
    ensures ReachSet(c) <= ReachSet(n) && c in ReachSet(n)
  {
    assert c.identity < n.identity && c in ReachSet(c);
  }

  lemma PostOrderedSnoc(order: seq<ExprNode>, n: ExprNode)
    requires PostOrdered(order) && n !in order && forall c :: c in Children(n.data) ==> c in order
    ensures PostOrdered(order + [n])
  {
    var more := order + [n];
    forall i, c | 0 <= i < |more| && c in Children(more[i].data) ensures c in more[..i] {
      assert more[..i] == order[..i];
      if i == |order| { assert order[..i] == order; }
    }
  }

  /** A visit keeps what was there and adds only nodes reachable from `n`, `n` last if it was new. */
  lemma {:induction false} VisitAdds(order: seq<ExprNode>, n: ExprNode)
    requires Formed(n)
    ensures var r := Visit(order, n);
            order <= r && n in r
            && (n !in order ==> r[|r| - 1] == n)
            && forall m: ExprNode :: m in r ==> m in order || (m in ReachSet(n) && m.identity <= n.identity)
    decreases n.identity
  {
    if n !in order {
      var cs := Children(n.data);
      VisitAllAdds(order, cs, n.identity);
      forall m | m in VisitAll(order, cs, n.identity) && m !in order ensures m in ReachSet(n) {
        var c :| c in cs && m in ReachSet(c);
        ReachStep(n, c);
      }
    }
  }

  lemma {:induction false} VisitAllAdds(order: seq<ExprNode>, cs: seq<ExprNode>, bound: nat)
    requires forall c :: c in cs ==> Formed(c) && c.identity < bound
    ensures var r := VisitAll(order, cs, bound);
            order <= r
            && (forall c :: c in cs ==> c in r)
            && forall m: ExprNode :: m in r ==>
               m in order || (m.identity < bound && exists c :: c in cs && m in ReachSet(c))
    decreases bound, |cs|
  {
    if cs != [] {
      hide Formed, ReachSet;
      assert cs == [cs[0]] + cs[1..];
      VisitAdds(order, cs[0]);
      VisitAllAdds(Visit(order, cs[0]), cs[1..], bound);
      forall m | m in VisitAll(order, cs, bound) && m !in order
        ensures m.identity < bound && exists c :: c in cs && m in ReachSet(c)
      {
        if m in Visit(order, cs[0]) { assert cs[0] in cs && m in ReachSet(cs[0]); }
        else {
          var c :| c in cs[1..] && m in ReachSet(c);
          assert c in cs;
        }
      }
    }
  }

  lemma {:induction false} VisitOrders(order: seq<ExprNode>, n: ExprNode)
    requires Formed(n) && PostOrdered(order)
    ensures PostOrdered(Visit(order, n))
    decreases n.identity
  {
    if n !in order {
      var cs := Children(n.data);
      VisitAllAdds(order, cs, n.identity);
      VisitAllOrders(order, cs, n.identity);
      PostOrderedSnoc(VisitAll(order, cs, n.identity), n);
    }
  }

  lemma {:induction false} VisitAllOrders(order: seq<ExprNode>, cs: seq<ExprNode>, bound: nat)
    requires PostOrdered(order) && forall c :: c in cs ==> Formed(c) && c.identity < bound
    ensures PostOrdered(VisitAll(order, cs, bound))
    decreases bound, |cs|
  {
    if cs != [] {
      hide PostOrdered, Formed;
      VisitOrders(order, cs[0]);
      VisitAllOrders(Visit(order, cs[0]), cs[1..], bound);
    }
  }

  /** An order closed under children holds all that is reachable from its nodes. */
  lemma {:induction false} ClosedHoldsReach(order: seq<ExprNode>, n: ExprNode)
    requires PostOrdered(order) && n in order
    ensures forall m: ExprNode :: m in ReachSet(n) ==> m in order
    decreases n.identity
  {
    var i :| 0 <= i < |order| && order[i] == n;
    forall c | c in Children(n.data) && c.identity < n.identity
      ensures forall m: ExprNode :: m in ReachSet(c) ==> m in order
    {
      assert c in order[..i];
      ClosedHoldsReach(order, c);
    }
  }

  /** The visit of a root lists exactly its reachable nodes, each once, children first, the root last. */
  lemma VisitExact(root: ExprNode)
    requires Formed(root)
    ensures var order := Visit([], root);
            PostOrdered(order) && order != [] && order[|order| - 1] == root
            && (forall m: ExprNode :: m in order ==> m in ReachSet(root))
            && (forall m: ExprNode :: m in ReachSet(root) ==> m in order)
  {
    VisitAdds([], root);
    VisitOrders([], root);
    ClosedHoldsReach(Visit([], root), root);
  }

  // ----------------------------------------------------------- the stack loop

  ghost predicate StackFormed(stack: seq<(ExprNode, bool)>) { forall k :: 0 <= k < |stack| ==> Formed(stack[k].0) }

  /** What remains to be done: the stack worked off from its top. */
  ghost function Finish(order: seq<ExprNode>, stack: seq<(ExprNode, bool)>): seq<ExprNode>
    requires StackFormed(stack)
    decreases |stack|
  {
    if stack == [] then order
    else
      var top, rest := stack[|stack| - 1], stack[..|stack| - 1];
      if top.0 in order then Finish(order, rest)
      else if top.1 then Finish(order + [top.0], rest)
      else Finish(Visit(order, top.0), rest)
  }

  /** The children as they are pushed: the first one ends up on top. */
  function Pending(d: ExprData<ExprNode>): (r: seq<(ExprNode, bool)>)
    ensures |r| == |Children(d)| && forall k :: 0 <= k < |r| ==> r[k] == (Children(d)[|r| - 1 - k], false)
  {
    match d
    case AppD(f, x) => [(x, false), (f, false)]
    case LamD(_, ty, body) => [(body, false), (ty, false)]
    case PiD(_, ty, body) => [(body, false), (ty, false)]
    case LetD(ty, val, body) => [(body, false), (val, false), (ty, false)]
    case ProjD(_, _, v) => [(v, false)]
    case BVarD(_) => []
    case SortD(_) => []
    case ConstD(_, _) => []
    case LitD(_) => []
  }

  /** Working off pushed children is visiting them in order. */
  lemma {:induction false} FinishPending(order: seq<ExprNode>, below: seq<(ExprNode, bool)>, cs: seq<ExprNode>,
                                         pending: seq<(ExprNode, bool)>, bound: nat)
    requires StackFormed(below)
    requires forall c :: c in cs ==> Formed(c) && c.identity < bound
    requires |pending| == |cs| && forall k :: 0 <= k < |cs| ==> pending[k] == (cs[|cs| - 1 - k], false)
    ensures Finish(order, below + pending) == Finish(VisitAll(order, cs, bound), below)
    decreases |cs|
  {
    if cs == [] {
      assert below + pending == below;
    } else {
      hide Visit, Formed, Finish;
      var rest := pending[..|pending| - 1];
      assert below + pending == below + rest + [(cs[0], false)] by { assert pending[|rest|] == (cs[0], false); }
      PendingFormed(below, rest, cs);
      FinishTop(order, below + rest, cs[0], false);
      VisitPlaced(order, cs[0]);
      FinishPending(Visit(order, cs[0]), below, cs[1..], rest, bound);
    }
  }

  lemma FinishExpand(order: seq<ExprNode>, below: seq<(ExprNode, bool)>, e: ExprNode)
    requires Formed(e) && e !in order
    requires StackFormed(below)
    ensures StackFormed(below + [(e, true)] + Pending(e.data))
    ensures Finish(order, below + [(e, false)]) == Finish(order, below + [(e, true)] + Pending(e.data))
  {
    var cs := Children(e.data);
    forall k | 0 <= k < |Pending(e.data)| ensures Formed(Pending(e.data)[k].0) {
      assert cs[|cs| - 1 - k] in cs;
    }
    VisitAllAdds(order, cs, e.identity);
    FinishPending(order, below + [(e, true)], cs, Pending(e.data), e.identity);
    var mid := VisitAll(order, cs, e.identity);
    assert e !in mid;
    FinishTop(mid, below, e, true);
    FinishTop(order, below, e, false);
  }

  lemma VisitPlaced(order: seq<ExprNode>, n: ExprNode)
    requires Formed(n)
    ensures n in order ==> Visit(order, n) == order
  {}

  lemma PendingFormed(below: seq<(ExprNode, bool)>, rest: seq<(ExprNode, bool)>, cs: seq<ExprNode>)
    requires StackFormed(below) && forall c :: c in cs ==> Formed(c)
    requires |rest| <= |cs| && forall k :: 0 <= k < |rest| ==> rest[k] == (cs[|cs| - 1 - k], false)
    ensures StackFormed(below + rest)
  {
    forall k | 0 <= k < |rest| ensures Formed(rest[k].0) { assert cs[|cs| - 1 - k] in cs; }
  }

  lemma FinishEmpty(order: seq<ExprNode>)
    ensures Finish(order, []) == order
  {}

  lemma FinishTop(order: seq<ExprNode>, below: seq<(ExprNode, bool)>, e: ExprNode, expanded: bool)
    requires Formed(e) && StackFormed(below)
    ensures Finish(order, below + [(e, expanded)])
         == Finish(if e in order then order else if expanded then order + [e] else Visit(order, e), below)
  {
    var stack := below + [(e, expanded)];
    assert stack[..|stack| - 1] == below;
  }

  /** Positions by identity, exactly for the nodes already placed. */
  ghost predicate Indexed(index: map<nat, nat>, order: seq<ExprNode>) {
    (forall k :: 0 <= k < |order| ==> order[k].identity in index && index[order[k].identity] == k)
    && forall id :: id in index ==> index[id] < |order| && order[index[id]].identity == id
  }

  ghost predicate OnStack(nodes: Store, stack: seq<(ExprNode, bool)>) {
    StackFormed(stack) && forall k :: 0 <= k < |stack| ==> Known(nodes, stack[k].0)
  }

  /** Above an entered entry there are only older nodes. */
  ghost predicate Descending(stack: seq<(ExprNode, bool)>) {
    forall j, k :: 0 <= j < k < |stack| && stack[j].1 ==> stack[k].0.identity < stack[j].0.identity
  }

  /** An entered node has been placed or still waits on the stack. */
  ghost predicate OpenedOk(entered: set<nat>, index: map<nat, nat>, stack: seq<(ExprNode, bool)>) {
    forall id :: id in entered ==>
      id in index || exists k :: 0 <= k < |stack| && stack[k].1 && stack[k].0.identity == id
  }

  lemma IndexedIn(nodes: Store, index: map<nat, nat>, order: seq<ExprNode>, e: ExprNode)
    requires KnownAll(nodes, order) && Indexed(index, order) && Known(nodes, e)
    ensures e.identity in index <==> e in order
  {}

  lemma PlaceNode(nodes: Store, order: seq<ExprNode>, index: map<nat, nat>, e: ExprNode)
    requires KnownAll(nodes, order) && Indexed(index, order) && Known(nodes, e) && e.identity !in index
    ensures KnownAll(nodes, order + [e]) && Indexed(index[e.identity := |order|], order + [e])
  {}

  lemma Popped(nodes: Store, whole: seq<(ExprNode, bool)>, entered: set<nat>, index: map<nat, nat>, at: nat)
    requires whole != [] && OnStack(nodes, whole) && Descending(whole) && OpenedOk(entered, index, whole)
    ensures var (e, expanded), rest := whole[|whole| - 1], whole[..|whole| - 1];
            Known(nodes, e) && Formed(e) && OnStack(nodes, rest) && Descending(rest)
            && (e.identity in index || !expanded ==> OpenedOk(entered, index, rest))
            && OpenedOk(entered, index[e.identity := at], rest)
  {
    var e, expanded, rest := whole[|whole| - 1].0, whole[|whole| - 1].1, whole[..|whole| - 1];
    assert whole == rest + [(e, expanded)];
    StackPopped(nodes, rest, e, expanded);
    EnteredPopped(entered, index, rest, e, expanded, at);
    hide Descending, OnStack, OpenedOk, Formed;
  }

  lemma StackPopped(nodes: Store, rest: seq<(ExprNode, bool)>, e: ExprNode, expanded: bool)
    requires OnStack(nodes, rest + [(e, expanded)]) && Descending(rest + [(e, expanded)])
    ensures Known(nodes, e) && Formed(e) && OnStack(nodes, rest) && Descending(rest)
  {
    hide Formed;
    var whole := rest + [(e, expanded)];
    assert whole[|rest|] == (e, expanded);
    assert forall k :: 0 <= k < |rest| ==> whole[k] == rest[k];
  }

  lemma EnteredPopped(entered: set<nat>, index: map<nat, nat>, rest: seq<(ExprNode, bool)>, e: ExprNode, expanded: bool,
                      at: nat)
    requires OpenedOk(entered, index, rest + [(e, expanded)])
    ensures e.identity in index || !expanded ==> OpenedOk(entered, index, rest)
    ensures OpenedOk(entered, index[e.identity := at], rest)
  {
    var whole := rest + [(e, expanded)];
    forall id | id in entered && id !in index && (id != e.identity || !expanded)
      ensures exists k :: 0 <= k < |rest| && rest[k].1 && rest[k].0.identity == id
    {
      var k :| 0 <= k < |whole| && whole[k].1 && whole[k].0.identity == id;
      assert rest[k] == whole[k];
    }
  }

  /** Opening a node: it was not entered before, and its children are older than everything entered below. */
  lemma OpenNode(nodes: Store, next: nat, whole: seq<(ExprNode, bool)>, entered: set<nat>, index: map<nat, nat>)
    requires StoreOk(nodes, next) && whole != [] && OnStack(nodes, whole) && Descending(whole)
             && OpenedOk(entered, index, whole)
    requires entered <= nodes.Keys && whole[|whole| - 1].0.identity !in index && !whole[|whole| - 1].1
    ensures var e, rest := whole[|whole| - 1].0, whole[..|whole| - 1];
            var after := rest + [(e, true)] + Pending(e.data);
            OnStack(nodes, after) && Descending(after) && OpenedOk(entered + {e.identity}, index, after)
            && entered + {e.identity} <= nodes.Keys && |nodes.Keys - (entered + {e.identity})| < |nodes.Keys - entered|
  {
    var e, rest := whole[|whole| - 1].0, whole[..|whole| - 1];
    assert whole == rest + [(e, false)];
    NotEntered(entered, index, whole);
    EnteredMore(entered, index, rest, e);
    Shrinks(nodes.Keys, entered, e.identity);
    OnStackMore(nodes, next, rest, e);
    DescendingMore(nodes, next, rest, e);
    hide *;
  }

  lemma NotEntered(entered: set<nat>, index: map<nat, nat>, whole: seq<(ExprNode, bool)>)
    requires whole != [] && Descending(whole) && OpenedOk(entered, index, whole)
    requires whole[|whole| - 1].0.identity !in index && !whole[|whole| - 1].1
    ensures whole[|whole| - 1].0.identity !in entered
  {}

  lemma OnStackMore(nodes: Store, next: nat, rest: seq<(ExprNode, bool)>, e: ExprNode)
    requires StoreOk(nodes, next) && OnStack(nodes, rest + [(e, false)]) && Descending(rest + [(e, false)])
    ensures OnStack(nodes, rest + [(e, true)] + Pending(e.data))
  {
    var after := rest + [(e, true)] + Pending(e.data);
    forall k | 0 <= k < |after| ensures Known(nodes, after[k].0) && Formed(after[k].0) {
      OlderAbove(nodes, next, rest, e, k);
    }
  }

  lemma DescendingMore(nodes: Store, next: nat, rest: seq<(ExprNode, bool)>, e: ExprNode)
    requires StoreOk(nodes, next) && OnStack(nodes, rest + [(e, false)]) && Descending(rest + [(e, false)])
    ensures Descending(rest + [(e, true)] + Pending(e.data))
  {
    hide StoreOk, Formed, OnStack;
    var whole, after := rest + [(e, false)], rest + [(e, true)] + Pending(e.data);
    forall j, k | 0 <= j < k < |after| && after[j].1 ensures after[k].0.identity < after[j].0.identity {
      OlderAbove(nodes, next, rest, e, k);
      OlderAbove(nodes, next, rest, e, j);
      if j < |rest| {
        assert after[j] == rest[j] == whole[j];
        if k < |rest| { assert after[k] == rest[k] == whole[k]; }
      } else if j == |rest| { assert after[j] == (e, true); }
    }
  }

  lemma EnteredMore(entered: set<nat>, index: map<nat, nat>, rest: seq<(ExprNode, bool)>, e: ExprNode)
    requires OpenedOk(entered, index, rest + [(e, false)])
    ensures OpenedOk(entered + {e.identity}, index, rest + [(e, true)] + Pending(e.data))
  {
    var whole, after := rest + [(e, false)], rest + [(e, true)] + Pending(e.data);
    forall id | id in entered + {e.identity}
      ensures id in index || exists k :: 0 <= k < |after| && after[k].1 && after[k].0.identity == id
    {
      if id == e.identity {
        assert after[|rest|] == (e, true);
      } else if id !in index {
        var k :| 0 <= k < |whole| && whole[k].1 && whole[k].0.identity == id;
        assert after[k] == whole[k];
      }
    }
  }

  lemma OlderAbove(nodes: Store, next: nat, rest: seq<(ExprNode, bool)>, e: ExprNode, k: nat)
    requires StoreOk(nodes, next) && OnStack(nodes, rest + [(e, false)]) && Descending(rest + [(e, false)])
    requires k < |rest| + 1 + |Pending(e.data)|
    ensures var after := rest + [(e, true)] + Pending(e.data);
            Known(nodes, after[k].0) && Formed(after[k].0)
            && (k > |rest| ==> !after[k].1 && after[k].0.identity < e.identity)
            && (k >= |rest| ==> forall j :: 0 <= j < |rest| && rest[j].1 ==> after[k].0.identity < rest[j].0.identity)
  {
    var whole := rest + [(e, false)];
    var cs, after := Children(e.data), rest + [(e, true)] + Pending(e.data);
    assert whole[|rest|] == (e, false);
    if k < |rest| {
      assert after[k] == whole[k];
    } else if k > |rest| {
      var c := cs[|cs| - 1 - (k - |rest| - 1)];
      assert after[k] == Pending(e.data)[k - |rest| - 1] == (c, false);
      assert c in cs;
    }
    forall j | k >= |rest| && 0 <= j < |rest| && rest[j].1 ensures after[k].0.identity < rest[j].0.identity {
      assert whole[j] == rest[j];
    }
  }

  lemma Shrinks(all: set<nat>, some: set<nat>, id: nat)
    requires id in all && id !in some
    ensures |all - (some + {id})| < |all - some|
  {
    assert all - some == (all - (some + {id})) + {id};
  }

  lemma FinishStart(nodes: Store, root: ExprNode)
    requires Formed(root) && Known(nodes, root)
    ensures OnStack(nodes, [(root, false)]) && KnownAll(nodes, []) && Indexed(map[], [])
    ensures Descending([(root, false)]) && OpenedOk({}, map[], [(root, false)])
    ensures Finish([], [(root, false)]) == Visit([], root)
  {
    FinishTop([], [], root, false);
    assert [] + [(root, false)] == [(root, false)];
  }

  /** The order of `root`'s nodes, and each node's position in it. */
  method OrderNodes(root: ExprNode, ghost nodes: Store, ghost next: nat)
    returns (order: seq<ExprNode>, index: map<nat, nat>)
    requires StoreOk(nodes, next) && Known(nodes, root) && Formed(root)
    ensures order == Visit([], root) && Indexed(index, order) && KnownAll(nodes, order)
  {
    hide StoreOk, Formed, Visit, Descending, OpenedOk, Finish, Indexed, StackFormed, KnownAll;
    order, index := [], map[];
    var stack: seq<(ExprNode, bool)> := [(root, false)];
    ghost var entered: set<nat> := {};
    FinishStart(nodes, root);
    while stack != []
      invariant OnStack(nodes, stack) && KnownAll(nodes, order) && Indexed(index, order)
      invariant Descending(stack) && OpenedOk(entered, index, stack) && entered <= nodes.Keys
      invariant Finish(order, stack) == Visit([], root)
      decreases |nodes.Keys - entered|, |stack|
    {
      var e: ExprNode, expanded := stack[|stack| - 1].0, stack[|stack| - 1].1;
      ghost var whole := stack;
      stack := stack[..|stack| - 1];
      Popped(nodes, whole, entered, index, |order|);
      IndexedIn(nodes, index, order, e);
      assert whole == stack + [(e, expanded)];
      FinishTop(order, stack, e, expanded);
      if e.identity !in index {
        if expanded {
          PlaceNode(nodes, order, index, e);
          index := index[e.identity := |order|];
          order := order + [e];
        } else {
          OpenNode(nodes, next, whole, entered, index);
          FinishExpand(order, stack, e);
          entered := entered + {e.identity};
          stack := stack + [(e, true)] + Pending(e.data);
        }
      }
    }
    FinishEmpty(order);
  }
}
