/**
 Whole histories of the engine. A run is any list of calls over a growing pool of nodes,
 clears, evictions and dropped references included; its pool always denotes what the
 plain recursive functions compute.
 */
module EngineRuns {
  import opened Terms
  import opened Nodes
  import opened ExprEngine
  import O = Occurrences
  import L = Levels

  /** Operands are positions in the pool; every result is appended to it. `Keep` drops the references it does not
      list, and in reclaiming mode the table loses the entries of the nodes nothing reaches any more. */
  datatype Call =
    | Build(d: ExprData<nat>)
    | DoShift(e: nat, off: int, cutoff: nat)
    | DoInstantiate(e: nat, args: seq<nat>)
    | DoInstantiate1(e: nat, arg: nat)
    | DoLevels(e: nat, subst: L.Subst)
    | DoUsed(e: nat)
    | ClearMemos
    | ClearTable(threshold: nat)
    | Keep(at: seq<nat>)

  predicate InPool(c: Call, n: nat) {
    match c
    case Build(d) => forall k :: k in Children(d) ==> k < n
    case DoShift(e, _, _) => e < n
    case DoInstantiate(e, args) => e < n && forall k :: 0 <= k < |args| ==> args[k] < n
    case DoInstantiate1(e, arg) => e < n && arg < n
    case DoLevels(e, _) => e < n
    case DoUsed(e) => e < n
    case ClearMemos => true
    case ClearTable(_) => true
    case Keep(at) => forall k :: 0 <= k < |at| ==> at[k] < n
  }

  function Pick<T>(pool: seq<T>, at: seq<nat>): (r: seq<T>)
    requires forall k :: 0 <= k < |at| ==> at[k] < |pool|
    ensures |r| == |at| && forall k :: 0 <= k < |at| ==> r[k] == pool[at[k]]
  {
    seq(|at|, k requires 0 <= k < |at| => pool[at[k]])
  }

  /** One call, on terms, with no table, memo or identity in sight. */
  function RefStep(pool: seq<Term>, c: Call): seq<Term> {
    if !InPool(c, |pool|) then pool
    else
      match c
      case Build(d) => pool + [BuildTerm(d, pool)]
      case DoShift(e, off, cutoff) => pool + [Shift(pool[e], off, cutoff)]
      case DoInstantiate(e, args) => pool + [InstAt(pool[e], Pick(pool, args), 0)]
      case DoInstantiate1(e, arg) => pool + [Inst1(pool[e], pool[arg])]
      case DoLevels(e, subst) => pool + [if subst == map[] then pool[e] else InstLevelParams(pool[e], subst)]
      case DoUsed(_) => pool
      case ClearMemos => pool
      case ClearTable(_) => pool
      case Keep(at) => Pick(pool, at)
  }

  function RefRun(pool: seq<Term>, calls: seq<Call>): seq<Term>
    decreases |calls|
  {
    if calls == [] then pool else RefRun(RefStep(pool, calls[0]), calls[1..])
  }

  /** What a call answers besides its node: the occurrence list, if it asks for one. */
  function RefAnswer(pool: seq<Term>, c: Call): seq<Option<seq<nat>>> {
    if c.DoUsed? && c.e < |pool| then [O.UsedSet(pool[c.e])] else []
  }

  function RefAnswers(pool: seq<Term>, calls: seq<Call>): seq<Option<seq<nat>>>
    decreases |calls|
  {
    if calls == [] then [] else RefAnswer(pool, calls[0]) + RefAnswers(RefStep(pool, calls[0]), calls[1..])
  }

  /** Runs one call on the engine. */
  method Step(engine: Engine, pool: seq<ExprNode>, c: Call)
    returns (pool': seq<ExprNode>, answer: seq<Option<seq<nat>>>)
    requires engine.Valid() && KnownAll(engine.nodes, pool)
    modifies engine
    ensures engine.Valid() && KnownAll(engine.nodes, pool')
    ensures DenoteAll(pool') == RefStep(DenoteAll(pool), c)
    ensures answer == RefAnswer(DenoteAll(pool), c)
    ensures c.ClearTable? || engine.cleared == old(engine.cleared)
  {
    hide Engine.Valid, Shift, InstAt, Inst1, InstLevelParams, Denote, Formed, BuildTerm, O.UsedSet, Gives;
    pool', answer := pool, [];
    if InPool(c, |pool|) {
      match c {
        case DoUsed(e) => var used := engine.UsedBvarSet(pool[e]); answer := [used];
        case ClearMemos => engine.ClearSubstMemos();
        case ClearTable(threshold) => var emptied := engine.InternClear(threshold);
        case Keep(at) => pool' := KeepOnly(engine, pool, at);
        case _ => var r := Produce(engine, pool, c); pool' := pool + [r];
      }
    }
  }

  predicate Produces(c: Call) { !c.DoUsed? && !c.ClearMemos? && !c.ClearTable? && !c.Keep? }

  /** What the node a call gives denotes, operand by operand. */
  ghost predicate Gives(pool: seq<ExprNode>, c: Call, r: Term) {
    match c
    case Build(_) => true
    case DoShift(e, off, cutoff) => e < |pool| && r == Shift(Denote(pool[e]), off, cutoff)
    case DoInstantiate(e, args) =>
      e < |pool| && exists operands ::
        |operands| == |args| && r == InstAt(Denote(pool[e]), operands, 0)
        && forall k :: 0 <= k < |args| ==> args[k] < |pool| && operands[k] == Denote(pool[args[k]])
    case DoInstantiate1(e, arg) =>
      e < |pool| && arg < |pool| && r == InstAt(Denote(pool[e]), [Denote(pool[arg])], 0)
    case DoLevels(e, subst) =>
      e < |pool| && r == if subst == map[] then Denote(pool[e]) else InstLevelParams(Denote(pool[e]), subst)
    case _ => false
  }

  /** The calls that give a node. */
  method Produce(engine: Engine, pool: seq<ExprNode>, c: Call) returns (r: ExprNode)
    requires engine.Valid() && KnownAll(engine.nodes, pool) && Produces(c) && InPool(c, |pool|)
    modifies engine
    ensures engine.Valid() && Grows(old(engine.nodes), engine.nodes) && engine.cleared == old(engine.cleared)
    ensures Known(engine.nodes, r) && DenoteAll(pool) + [Denote(r)] == RefStep(DenoteAll(pool), c)
    ensures Gives(pool, c, Denote(r))
  {
    hide Engine.Valid, Shift, InstAt, InstLevelParams, Denote, Formed, BuildTerm;
    match c
    case Build(d) => r := BuildNode(engine, pool, d);
    case DoShift(e, off, cutoff) => r := engine.ShiftNode(pool[e], off, cutoff);
    case DoInstantiate(e, args) =>
      assert DenoteAll(Pick(pool, args)) == Pick(DenoteAll(pool), args);
      r := engine.Instantiate(pool[e], Pick(pool, args));
      assert Denote(r) == InstAt(Denote(pool[e]), DenoteAll(Pick(pool, args)), 0);
    case DoInstantiate1(e, arg) => r := engine.Instantiate1(pool[e], pool[arg]);
    case DoLevels(e, subst) => r := engine.InstantiateLevelParams(pool[e], subst);
  }

  method KeepOnly(engine: Engine, pool: seq<ExprNode>, at: seq<nat>) returns (pool': seq<ExprNode>)
    requires engine.Valid() && KnownAll(engine.nodes, pool) && forall k :: 0 <= k < |at| ==> at[k] < |pool|
    modifies engine
    ensures engine.Valid() && KnownAll(engine.nodes, pool') && engine.cleared == old(engine.cleared)
    ensures DenoteAll(pool') == Pick(DenoteAll(pool), at)
  {
    hide Engine.Valid, Denote, Formed;
    pool' := Pick(pool, at);
    assert DenoteAll(pool') == Pick(DenoteAll(pool), at);
    ghost var holders := engine.LoseDead(pool');
  }

  method BuildNode(engine: Engine, pool: seq<ExprNode>, d: ExprData<nat>) returns (r: ExprNode)
    requires engine.Valid() && KnownAll(engine.nodes, pool) && forall k :: k in Children(d) ==> k < |pool|
    modifies engine
    ensures engine.Valid() && Grows(old(engine.nodes), engine.nodes) && engine.cleared == old(engine.cleared)
    ensures Known(engine.nodes, r) && Formed(r) && Denote(r) == BuildTerm(d, DenoteAll(pool))
  {
    hide Engine.Valid, Denote, Formed;
    match d
    case BVarD(i) => r := engine.MkBVar(i);
    case SortD(l) => r := engine.MkSort(l);
    case ConstD(n, us) => r := engine.MkConst(n, us);
    case LitD(lit) => r := engine.MkLit(lit);
    case AppD(f, x) => assert f in Children(d) && x in Children(d); r := engine.MkApp(pool[f], pool[x]);
    case LamD(bi, ty, body) =>
      assert ty in Children(d) && body in Children(d);
      r := engine.MkBinder(true, bi, pool[ty], pool[body]);
    case PiD(bi, ty, body) =>
      assert ty in Children(d) && body in Children(d);
      r := engine.MkBinder(false, bi, pool[ty], pool[body]);
    case LetD(ty, val, body) =>
      assert ty in Children(d) && val in Children(d) && body in Children(d);
      r := engine.MkLet(pool[ty], pool[val], pool[body]);
    case ProjD(s, i, v) => assert v in Children(d); r := engine.MkProj(s, i, pool[v]);
  }

  /** Any history, from any valid engine, for any hash function, computes what the references compute.
      Until the table is emptied, pool nodes are the same node if and only if they are the same term. */
  method Run(engine: Engine, start: seq<ExprNode>, calls: seq<Call>)
    returns (pool: seq<ExprNode>, answers: seq<Option<seq<nat>>>)
    requires engine.Valid() && KnownAll(engine.nodes, start)
    modifies engine
    ensures engine.Valid() && KnownAll(engine.nodes, pool)
    ensures DenoteAll(pool) == RefRun(DenoteAll(start), calls)
    ensures answers == RefAnswers(DenoteAll(start), calls)
    ensures (forall k :: 0 <= k < |calls| ==> !calls[k].ClearTable?) ==> engine.cleared == old(engine.cleared)
    ensures !engine.cleared ==>
              forall i, j :: 0 <= i < |pool| && 0 <= j < |pool| ==>
                (pool[i] == pool[j] <==> Denote(pool[i]) == Denote(pool[j]))
  {
    hide Engine.Valid, RefStep, RefAnswer, KnownAll;
    pool, answers := start, [];
    for k := 0 to |calls|
      invariant engine.Valid() && KnownAll(engine.nodes, pool)
      invariant RefRun(DenoteAll(pool), calls[k..]) == RefRun(DenoteAll(start), calls)
      invariant answers + RefAnswers(DenoteAll(pool), calls[k..]) == RefAnswers(DenoteAll(start), calls)
      invariant (forall j :: 0 <= j < k ==> !calls[j].ClearTable?) ==> engine.cleared == old(engine.cleared)
    {
      ghost var before, said := DenoteAll(pool), answers;
      var answer;
      pool, answer := Step(engine, pool, calls[k]);
      answers := answers + answer;
      assert calls[k..][1..] == calls[k + 1..] && calls[k..][0] == calls[k];
      assert said + (answer + RefAnswers(DenoteAll(pool), calls[k + 1..]))
             == answers + RefAnswers(DenoteAll(pool), calls[k + 1..]);
    }
    assert answers + [] == answers;
    if !engine.cleared { PoolUnique(engine, pool); }
  }

  /** As long as nothing has left the table, equal terms are one node. */
  lemma PoolUnique(engine: Engine, pool: seq<ExprNode>)
    requires engine.Valid() && KnownAll(engine.nodes, pool) && !engine.cleared
    ensures forall i, j :: 0 <= i < |pool| && 0 <= j < |pool| ==>
              (pool[i] == pool[j] <==> Denote(pool[i]) == Denote(pool[j]))
  {
    hide Formed, Denote, Interned, StoreOk, TableOk, AllFiled, ShiftMemoOk, Inst1MemoOk, IdsOk, LevelMemoOk, UsedMemoOk;
    forall i, j | 0 <= i < |pool| && 0 <= j < |pool| ensures pool[i] == pool[j] <==> Denote(pool[i]) == Denote(pool[j])
    {
      KnownParts(engine.nodes, engine.nextId, pool[i]);
      KnownParts(engine.nodes, engine.nextId, pool[j]);
      FiledInterned(engine.nodes, engine.nextId, engine.primary, engine.overflow, pool[i]);
      FiledInterned(engine.nodes, engine.nextId, engine.primary, engine.overflow, pool[j]);
      InternedUnique(engine.nodes, engine.primary, engine.overflow, engine.hash, pool[i], pool[j]);
    }
  }
}
