/**
 An export as a list of classified lines, what handling a line reads from the node table,
 and the run that keeps every node.
 */
module Export {
  import opened Naturals
  import opened Terms
  import opened Nodes

  type Table = seq<Option<Term>>

  datatype Answer = Holds(t: Term) | Released | OutOfRange

  /**
   What a handler does with the table: it asks for slots one at a time, each choice free to
   depend on the answers so far, at most once per field of its line, and comes to a result.
   */
  datatype Program<!R> = Program(fields: nat, ask: seq<Answer> -> Option<nat>, result: seq<Answer> -> R)

  function Look(table: Table, i: nat): Answer {
    if i >= |table| then OutOfRange else if table[i].None? then Released else Holds(table[i].value)
  }

  function PerformFrom<R>(p: Program<R>, table: Table, got: seq<Answer>): R
    decreases p.fields - |got|
  {
    if |got| < p.fields && p.ask(got).Some? then PerformFrom(p, table, got + [Look(table, p.ask(got).value)])
       else p.result(got)
  }

  function Perform<R>(p: Program<R>, table: Table): R { PerformFrom(p, table, []) }

  /** Whatever the answers, only indices in `refs` are asked for. */
  ghost predicate Within<R>(p: Program<R>, refs: seq<nat>) {
    forall got: seq<Answer> :: |got| < p.fields && p.ask(got).Some? ==> p.ask(got).value in refs
  }

  /** Two tables that answer alike on `refs` cannot be told apart by a program that stays within them. */
  lemma {:induction false} PerformAlike<R>(p: Program<R>, refs: seq<nat>, a: Table, b: Table, got: seq<Answer>)
    requires Within(p, refs) && forall i :: i in refs ==> Look(a, i) == Look(b, i)
    ensures PerformFrom(p, a, got) == PerformFrom(p, b, got)
    decreases p.fields - |got|
  {
    if |got| < p.fields && p.ask(got).Some? { PerformAlike(p, refs, a, b, got + [Look(a, p.ask(got).value)]); }
  }

  /** `a` is `b` with some slots emptied. */
  ghost predicate Emptier(a: Table, b: Table) {
    |a| == |b| && forall i :: 0 <= i < |a| ==> a[i] == b[i] || a[i] == None
  }

  /** On an emptied table a program answers the same, or has been told that a slot was released. */
  lemma {:induction false} PerformOrReleased<R>(p: Program<R>, a: Table, b: Table, got: seq<Answer>)
    returns (all: seq<Answer>)
    requires Emptier(a, b)
    ensures PerformFrom(p, a, got) == PerformFrom(p, b, got)
            || (Released in all && PerformFrom(p, a, got) == p.result(all))
    ensures got <= all && PerformFrom(p, a, got) == p.result(all)
    decreases p.fields - |got|
  {
    if |got| < p.fields && p.ask(got).Some? {
      var i := p.ask(got).value;
      all := PerformOrReleased(p, a, b, got + [Look(a, i)]);
      if Look(a, i) != Look(b, i) { assert all[|got|] == Released; }
    } else {
      all := got;
    }
  }

  /** The slots a program asks for, in order, when it runs on `table` with the answers `got` so far. */
  function AskedFrom<R>(p: Program<R>, table: Table, got: seq<Answer>): seq<nat>
    decreases p.fields - |got|
  {
    if |got| < p.fields && p.ask(got).Some? then
      var i := p.ask(got).value;
      [i] + AskedFrom(p, table, got + [Look(table, i)])
    else []
  }

  function Asked<R>(p: Program<R>, table: Table): seq<nat> { AskedFrom(p, table, []) }

  /** Tables that answer alike on the slots actually asked for give the same result. */
  lemma {:induction false} AskedAlike<R>(p: Program<R>, a: Table, b: Table, got: seq<Answer>)
    requires forall i :: i in AskedFrom(p, b, got) ==> Look(a, i) == Look(b, i)
    ensures PerformFrom(p, a, got) == PerformFrom(p, b, got)
    decreases p.fields - |got|
  {
    if |got| < p.fields && p.ask(got).Some? {
      var i := p.ask(got).value;
      assert i in AskedFrom(p, b, got);
      AskedAlike(p, a, b, got + [Look(a, i)]);
    }
  }

  /** A slot asked for that has been emptied since is answered `Released` before the program ends. */
  lemma {:induction false} AskedReleased<R>(p: Program<R>, a: Table, b: Table, got: seq<Answer>, i: nat)
    returns (all: seq<Answer>)
    requires Emptier(a, b) && i in AskedFrom(p, b, got) && Look(a, i) != Look(b, i)
    ensures Released in all && PerformFrom(p, a, got) == p.result(all)
    decreases p.fields - |got|
  {
    var first := p.ask(got).value;
    if Look(a, first) == Look(b, first) {
      all := AskedReleased(p, a, b, got + [Look(a, first)], i);
    } else {
      all := PerformOrReleased(p, a, b, got + [Look(a, first)]);
      assert all[|got|] == Released;
    }
  }

  /** A program only asks within its bounds. */
  lemma {:induction false} AskedWithin<R>(p: Program<R>, refs: seq<nat>, table: Table, got: seq<Answer>)
    requires Within(p, refs)
    ensures forall i :: i in AskedFrom(p, table, got) ==> i in refs
    decreases p.fields - |got|
  {
    if |got| < p.fields && p.ask(got).Some? { AskedWithin(p, refs, table, got + [Look(table, p.ask(got).value)]); }
  }

  // ------------------------------------------------------- expression lines

  datatype ExprRecord = Layer(d: ExprData<nat>) | Mdata(inner: nat) | Unknown

  /** The slots an expression line reads, in the order it reads them. */
  function Mentions(e: ExprRecord): seq<nat> {
    match e
    case Unknown => []
    case Mdata(i) => [i]
    case Layer(d) => Children(d)
  }

  predicate AllHold(got: seq<Answer>) { forall k :: 0 <= k < |got| ==> got[k].Holds? }

  /** The term built from the answers; metadata is dropped. */
  function Assemble(e: ExprRecord, got: seq<Answer>): Option<Term>
    requires |got| == |Mentions(e)| && AllHold(got)
  {
    match e
    case Unknown => None
    case Mdata(_) => Some(got[0].t)
    case Layer(BVarD(i)) => Some(BVar(i))
    case Layer(SortD(l)) => Some(Sort(l))
    case Layer(ConstD(n, us)) => Some(Const(n, us))
    case Layer(LitD(lit)) => Some(Lit(lit))
    case Layer(AppD(_, _)) => Some(App(got[0].t, got[1].t))
    case Layer(LamD(bi, _, _)) => Some(Lam(bi, got[0].t, got[1].t))
    case Layer(PiD(bi, _, _)) => Some(Pi(bi, got[0].t, got[1].t))
    case Layer(LetD(_, _, _)) => Some(Let(got[0].t, got[1].t, got[2].t))
    case Layer(ProjD(n, i, _)) => Some(Proj(n, i, got[0].t))
  }

  /** An expression line stops at the first slot without a term. */
  function Reader(e: ExprRecord): Program<Option<Term>> {
    var refs := Mentions(e);
    Program(|refs|,
            got => if |got| < |refs| && AllHold(got) then Some(refs[|got|]) else None,
            got => if |got| == |refs| && AllHold(got) then Assemble(e, got) else None)
  }

  /** The whole table as terms, where it holds any. */
  function Pool(table: Table): (r: seq<Term>)
    ensures |r| == |table| && forall i :: 0 <= i < |table| && table[i].Some? ==> r[i] == table[i].value
  {
    seq(|table|, i requires 0 <= i < |table| => if table[i].Some? then table[i].value else BVar(0))
  }

  ghost predicate Readable(table: Table, refs: seq<nat>) { forall i :: i in refs ==> Look(table, i).Holds? }

  lemma {:induction false} ReaderFrom(e: ExprRecord, table: Table, got: seq<Answer>)
    requires |got| <= |Mentions(e)| && AllHold(got)
    requires forall k :: 0 <= k < |got| ==> got[k] == Look(table, Mentions(e)[k])
    ensures Readable(table, Mentions(e)) ==>
              exists all: seq<Answer> :: |all| == |Mentions(e)| && AllHold(all)
                && PerformFrom(Reader(e), table, got) == Assemble(e, all)
                && forall k :: 0 <= k < |all| ==> all[k] == Look(table, Mentions(e)[k])
    ensures !Readable(table, Mentions(e)) ==> PerformFrom(Reader(e), table, got) == None
    decreases |Mentions(e)| - |got|
  {
    var refs := Mentions(e);
    if |got| < |refs| {
      var a := Look(table, refs[|got|]);
      assert refs[|got|] in refs;
      if a.Holds? {
        ReaderFrom(e, table, got + [a]);
      } else {
        assert !AllHold(got + [a]) by { assert (got + [a])[|got|] == a; }
      }
    } else {
      assert Readable(table, refs);
    }
  }

  /** An expression line fails exactly when its kind is unknown or some slot it names holds no term. */
  lemma ReaderFails(e: ExprRecord, table: Table)
    ensures Perform(Reader(e), table) == None <==> e.Unknown? || !Readable(table, Mentions(e))
  {
    ReaderFrom(e, table, []);
  }

  /** An expression line builds its layer over the slots it names, and exactly when all of them hold terms. */
  lemma ReaderBuilds(d: ExprData<nat>, table: Table)
    ensures Readable(table, Children(d)) ==>
              (forall i :: i in Children(d) ==> i < |table|)
                && Perform(Reader(Layer(d)), table) == Some(BuildTerm(d, Pool(table)))
    ensures !Readable(table, Children(d)) ==> Perform(Reader(Layer(d)), table) == None
  {
    ReaderFrom(Layer(d), table, []);
    if Readable(table, Children(d)) {
      forall i | i in Children(d) ensures i < |table| && Look(table, i) == Holds(Pool(table)[i]) {}
      var all: seq<Answer> :| |all| == |Children(d)| && AllHold(all)
        && Perform(Reader(Layer(d)), table) == Assemble(Layer(d), all)
                && forall k :: 0 <= k < |all| ==> all[k] == Look(table, Mentions(Layer(d))[k]);
      assert forall k :: 0 <= k < |all| ==> all[k] == Holds(Pool(table)[Children(d)[k]]);
      hide AllHold, Readable, Perform, Pool, Look;
      match d
      case AppD(f, x) => assert f in Children(d) && x in Children(d);
      case LamD(_, ty, body) => assert ty in Children(d) && body in Children(d);
      case PiD(_, ty, body) => assert ty in Children(d) && body in Children(d);
      case LetD(ty, val, body) => assert ty in Children(d) && val in Children(d) && body in Children(d);
      case ProjD(_, _, v) => assert v in Children(d);
      case _ =>
    }
  }

  /** A metadata line yields the very term it wraps. */
  lemma ReaderUnwraps(i: nat, table: Table, t: Term)
    ensures Perform(Reader(Mdata(i)), table) == Some(t) <==> Look(table, i) == Holds(t)
  {
    ReaderFrom(Mdata(i), table, []);
    if Readable(table, Mentions(Mdata(i))) {
      assert i in Mentions(Mdata(i));
    }
  }

  ghost predicate Slot(table: Table, i: nat, t: Term) { i < |table| && table[i] == Some(t) }

  /** `t` is the term an expression line describes over the terms in `table`. */
  ghost predicate Describes(e: ExprRecord, table: Table, t: Term) {
    match e
    case Unknown => false
    case Mdata(i) => Slot(table, i, t)
    case Layer(BVarD(i)) => t == BVar(i)
    case Layer(SortD(l)) => t == Sort(l)
    case Layer(ConstD(n, us)) => t == Const(n, us)
    case Layer(LitD(lit)) => t == Lit(lit)
    case Layer(AppD(f, x)) => t.App? && Slot(table, f, t.f) && Slot(table, x, t.x)
    case Layer(LamD(bi, ty, body)) => t.Lam? && t.bi == bi && Slot(table, ty, t.ty) && Slot(table, body, t.body)
    case Layer(PiD(bi, ty, body)) => t.Pi? && t.bi == bi && Slot(table, ty, t.ty) && Slot(table, body, t.body)
    case Layer(LetD(ty, val, body)) =>
      t.Let? && Slot(table, ty, t.ty) && Slot(table, val, t.val) && Slot(table, body, t.body)
    case Layer(ProjD(n, i, v)) => t.Proj? && t.sname == n && t.field == i && Slot(table, v, t.v)
  }

  /** An expression line yields the one term it describes, if there is one. */
  lemma ReaderDescribes(e: ExprRecord, table: Table, t: Term)
    ensures Perform(Reader(e), table) == Some(t) <==> Describes(e, table, t)
  {
    if e.Mdata? {
      ReaderUnwraps(e.inner, table, t);
    } else if e.Layer? {
      hide Perform, Reader;
      ReaderBuilds(e.d, table);
      if Readable(table, Children(e.d)) { BuiltDescribes(e.d, table); } else { UnreadDescribesNothing(e.d, table, t); }
      if Describes(e, table, t) && Readable(table, Children(e.d)) {
        DescribesOne(e, table, t, BuildTerm(e.d, Pool(table)));
      }
    } else {
      ReaderFails(e, table);
    }
  }

  lemma BuiltDescribes(d: ExprData<nat>, table: Table)
    requires Readable(table, Children(d)) && forall i :: i in Children(d) ==> i < |table|
    ensures Describes(Layer(d), table, BuildTerm(d, Pool(table)))
  {
    forall i | i in Children(d) ensures Slot(table, i, Pool(table)[i]) { assert Look(table, i).Holds?; }
    hide Pool, Slot, Readable;
    match d
    case AppD(f, x) => assert f in Children(d) && x in Children(d);
    case LamD(_, ty, body) => assert ty in Children(d) && body in Children(d);
    case PiD(_, ty, body) => assert ty in Children(d) && body in Children(d);
    case LetD(ty, val, body) => assert ty in Children(d) && val in Children(d) && body in Children(d);
    case ProjD(_, _, v) => assert v in Children(d);
    case _ =>
  }

  lemma UnreadDescribesNothing(d: ExprData<nat>, table: Table, t: Term)
    requires !Readable(table, Children(d))
    ensures !Describes(Layer(d), table, t)
  {}

  lemma DescribesOne(e: ExprRecord, table: Table, t: Term, u: Term)
    requires Describes(e, table, t) && Describes(e, table, u)
    ensures t == u
  {}

  // ------------------------------------------------------------------- lines

  datatype Handled = Accepted | Ignored | Failed

  /**
   One line. `refs` is what the first pass reports as referenced; a declaration's handler
   also depends on the environment built so far. An ignored line is one the first pass
   counts as a declaration and the parser does not handle.
   */
  datatype Record<!E> =
    | Define(idx: nat, refs: seq<nat>, names: seq<nat>, e: ExprRecord)
    | Declare(refs: seq<nat>, handler: E -> Program<(E, Handled)>)
    | Other

  /** The report names every index the line reads; it may name more. */
  ghost predicate Reported<E(!new)>(r: Record<E>) {
    match r
    case Define(_, refs, _, e) => forall i :: i in Mentions(e) ==> i in refs
    case Declare(refs, handler) => forall env: E :: Within(handler(env), refs)
    case Other => true
  }

  /** A handler told that a slot it asked for was released fails. */
  ghost predicate FailsClosed<E(!new)>(r: Record<E>) {
    match r
    case Declare(_, handler) =>
      forall env: E, got: seq<Answer> :: Released in got ==> handler(env).result(got).1 == Failed
    case Define(_, _, _, _) => true
    case Other => true
  }

  /** What the run relies on, line by line: nothing read goes unreported, or reading a released slot is an error. */
  ghost predicate Guarded<E(!new)>(r: Record<E>) { Reported(r) || FailsClosed(r) }

  datatype State<E> = State(table: Table, env: E, failed: bool)

  /** The table grown to hold `idx`. */
  function Grown(table: Table, idx: nat): (r: Table)
    ensures |r| == MaxNat(|table|, idx + 1)
    ensures forall i :: 0 <= i < |r| ==> r[i] == if i < |table| then table[i] else None
  {
    seq(MaxNat(|table|, idx + 1), i requires 0 <= i < MaxNat(|table|, idx + 1) => if i < |table| then table[i]
        else None)
  }

  function KeepStep<E>(s: State<E>, r: Record<E>): State<E> {
    if s.failed then s
    else
      match r
      case Other => s
      case Define(idx, _, _, e) =>
        var t := Perform(Reader(e), s.table);
        if t.None? then s.(failed := true) else s.(table := Grown(s.table, idx)[idx := t])
      case Declare(_, handler) =>
        var (env, h) := Perform(handler(s.env), s.table);
        s.(env := env, failed := h == Failed)
  }

  /** An accepted expression line grows the table to its index, puts the term it describes there, and leaves every
      other slot as it was. */
  ghost predicate Written(before: Table, after: Table, idx: nat, e: ExprRecord) {
    |after| == MaxNat(|before|, idx + 1) && after[idx].Some? && Describes(e, before, after[idx].value)
    && forall i :: 0 <= i < |after| && i != idx ==> after[i] == if i < |before| then before[i] else None
  }

  lemma WrittenAt(before: Table, idx: nat, e: ExprRecord)
    requires Perform(Reader(e), before).Some?
    ensures Written(before, Grown(before, idx)[idx := Perform(Reader(e), before)], idx, e)
  {
    hide Perform, Reader;
    ReaderDescribes(e, before, Perform(Reader(e), before).value);
  }

  /** The run of the first `k` lines that never releases a node. */
  function KeepRun<E>(start: E, records: seq<Record<E>>, k: nat): State<E>
    requires k <= |records|
  {
    if k == 0 then State([], start, false) else KeepStep(KeepRun(start, records, k - 1), records[k - 1])
  }

  /** A slot holds what the last line defining it described, over the slots as they were then. */
  lemma {:induction false} KeepSlot<E>(start: E, records: seq<Record<E>>, j: nat, k: nat)
    requires j < k <= |records| && records[j].Define? && !KeepRun(start, records, k).failed
    requires forall m :: j < m < k && records[m].Define? ==> records[m].idx != records[j].idx
    ensures var idx, table := records[j].idx, KeepRun(start, records, k).table;
            idx < |table| && table[idx].Some?
            && Describes(records[j].e, KeepRun(start, records, j).table, table[idx].value)
    decreases k
  {
    hide Perform, Reader, Describes;
    if j == k - 1 {
      var before := KeepRun(start, records, j);
      WrittenAt(before.table, records[j].idx, records[j].e);
    } else {
      KeepSlot(start, records, j, k - 1);
    }
  }
}
