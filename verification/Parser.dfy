/**
 The line-by-line run over an export, keeping every node or releasing nodes as they
 expire. Both runs end in the same environment with the same verdict.
 */
module Parser {
  import opened Naturals
  import opened Terms
  import opened Export
  import opened Lifetimes
  import opened Nodes
  import B = BitSets
  import L = Levels

  /** What a releasing table is: the keeping one, emptied where the last mention was by line `released`. */
  ghost predicate Tracks(keep: Table, table: Table, last: seq<nat>, groupFirst: nat, released: nat) {
    |table| == |keep| <= |last| && groupFirst <= |table|
    && forall i :: 0 <= i < |table| ==> table[i] == if i < groupFirst && last[i] <= released then None else keep[i]
  }

  /** The facts about the scan that hold after `k` lines, the last release having been at line `released`. */
  ghost predicate InStep(last: seq<nat>, home: seq<nat>, k: nat, size: nat, groupFirst: nat, released: nat) {
    |home| == |last| && size <= |last| && groupFirst <= size && released <= k
    && (forall i :: 0 <= i < groupFirst ==> home[i] <= released)
    && (forall i :: groupFirst <= i < |last| ==> last[i] == 0 || last[i] > released)
    && (forall i :: size <= i < |last| ==> last[i] == 0 || last[i] > k)
    && forall i :: 0 <= i < |last| ==> home[i] >= 1
  }

  /** Reads of line `k + 1` answer alike on both tables. */
  lemma AnswersAlike(keep: Table, table: Table, last: seq<nat>, groupFirst: nat, released: nat, k: nat, refs: seq<nat>)
    requires Tracks(keep, table, last, groupFirst, released) && released <= k
    requires forall i :: i in refs && i < |table| ==> last[i] > k
    ensures forall i :: i in refs ==> Look(table, i) == Look(keep, i)
  {}

  /** Defining an index on line `k + 1` leaves both tables in step. */
  lemma DefineTracks(keep: Table, table: Table, last: seq<nat>, groupFirst: nat, released: nat, k: nat, idx: nat,
                     t: Option<Term>)
    requires Tracks(keep, table, last, groupFirst, released) && released <= k && idx < |last| && last[idx] > k
    ensures Tracks(Grown(keep, idx)[idx := t], Grown(table, idx)[idx := t], last, groupFirst, released)
  {}

  /** A release at declaration line `line` empties exactly the slots whose last mention is past. */
  lemma ReleaseTracks(keep: Table, table: Table, after: Table, released: seq<nat>, short: seq<nat>,
                      long: seq<(nat, nat)>,
                      last: seq<nat>, home: seq<nat>, groupFirst: nat, before: nat, from: nat, to: nat, k: nat,
                        line: nat)
    requires line == k + 1
    requires Tracks(keep, table, last, groupFirst, before) && InStep(last, home, k, |table|, groupFirst, before)
    requires Tables(short, long, last, home) && PassedTo(long, from, to, line) && Emptied(table, after, released)
    requires forall j :: 0 <= j < from ==> long[j].0 <= before
    requires forall i: nat :: i in released <==>
               (groupFirst <= i < |table| && B.Test(short, i)) || ListedBetween(long, from, to, i)
    requires forall i :: 0 <= i < |table| ==> home[i] <= line
    ensures Tracks(keep, after, last, |table|, line)
    ensures forall j :: 0 <= j < to ==> long[j].0 <= line
  {
    forall i | 0 <= i < |table| ensures after[i] == if last[i] <= line then None else keep[i] {
      if last[i] <= line && last[i] > home[i] && last[i] > before {
        ListedByLine(long, last, home, from, to, line, before, i);
      }
      if ListedBetween(long, from, to, i) {
        var j :| from <= j < to && long[j].1 == i;
        assert long[j] in long;
      }
    }
  }

  lemma ListedByLine(long: seq<(nat, nat)>, last: seq<nat>, home: seq<nat>, from: nat, to: nat, line: nat, before: nat,
                     i: nat)
    requires from <= to <= |long| && Sorted(long) && PassedTo(long, from, to, line)
    requires forall k :: 0 <= k < from ==> long[k].0 <= before
    requires i < |last| && (last[i], i) in long && before < last[i] <= line
    ensures ListedBetween(long, from, to, i)
  {
    var k :| 0 <= k < |long| && long[k] == (last[i], i);
    assert k < to;
    assert from <= k < to && long[k].1 == i;
  }

  // ------------------------------------------------------------ facts of the scan

  /** The last release was at a declaration line, with `groupFirst` indices defined. */
  ghost predicate ReleasedAt<E>(records: seq<Record<E>>, groupFirst: nat, released: nat) {
    (released == 0 && groupFirst == 0) || (DeclAt(records, released) && groupFirst == SizeAt(records, released))
  }

  lemma InStepAt<E>(records: seq<Record<E>>, k: nat, groupFirst: nat, released: nat)
    requires released <= k <= |records| < NEVER && ReleasedAt(records, groupFirst, released)
    ensures var last := LastRefs(records, |records|);
            InStep(last, Homes(records, |last|), k, |LastRefs(records, k)|, groupFirst, released)
  {
    hide LastRefs, Home;
    var last := LastRefs(records, |records|);
    LastRefsForward(records, k, |records|);
    forall i | 0 <= i < |last| ensures Home(records, i) >= 1 { HomePositive(records, i); }
    if released > 0 {
      LastRefsForward(records, released - 1, k);
      LastRefsForward(records, released - 1, |records|);
      ReleaseLineLater(records, released);
      forall i | 0 <= i < groupFirst ensures Home(records, i) <= released { HomeBy(records, released - 1, i); }
    }
  }

  lemma HomePositive<E>(records: seq<Record<E>>, i: nat)
    ensures Home(records, i) >= 1
  {
    DeclFacts(records, |records|);
    var h := HomeFromFound(DeclLines(records, |records|), DeclFirst(records, |records|), 0, i);
  }

  /** An index not in the table at a declaration line is mentioned after that line, if at all. */
  lemma ReleaseLineLater<E>(records: seq<Record<E>>, line: nat)
    requires DeclAt(records, line)
    ensures var last := LastRefs(records, |records|);
            forall i :: SizeAt(records, line) <= i < |last| ==> last[i] == 0 || last[i] > line
  {
    assert |LastRefs(records, line)| == SizeAt(records, line);
    LastRefsForward(records, line, |records|);
  }

  /** The parser's table and the scan's have the same size as long as the run has not failed. */
  lemma {:induction false} SizesMatch<E>(start: E, records: seq<Record<E>>, k: nat)
    requires k <= |records| && !KeepRun(start, records, k).failed
    ensures |KeepRun(start, records, k).table| == |LastRefs(records, k)|
  {
    hide Perform;
    if k > 0 { SizesMatch(start, records, k - 1); }
  }

  /** How line `k + 1` of the keeping run was handled. */
  function Verdict<E>(start: E, records: seq<Record<E>>, k: nat): Handled
    requires k < |records|
  {
    var s := KeepRun(start, records, k);
    match records[k]
    case Other => Ignored
    case Define(_, _, _, e) => if Perform(Reader(e), s.table).None? then Failed else Ignored
    case Declare(_, handler) => Perform(handler(s.env), s.table).1
  }

  // --------------------------------------------------------------- lost reads

  /** The line of the last declaration the keeping run accepted among the first `k`; 0 if there is none. */
  function LastRelease<E>(start: E, records: seq<Record<E>>, k: nat): (r: nat)
    requires k <= |records|
    ensures r <= k && (r > 0 ==> DeclAt(records, r))
  {
    if k == 0 then 0 else if Verdict(start, records, k - 1) == Accepted then k else LastRelease(start, records, k - 1)
  }

  /** The slots line `k + 1` of the keeping run asks for. */
  function Asks<E>(start: E, records: seq<Record<E>>, k: nat): seq<nat>
    requires k < |records|
  {
    var s := KeepRun(start, records, k);
    match records[k]
    case Other => []
    case Define(_, _, _, e) => Asked(Reader(e), s.table)
    case Declare(_, handler) => Asked(handler(s.env), s.table)
  }

  /** Line `k + 1` asks for a slot that held a term at the last release and that no line after it was
      seen to mention. */
  ghost predicate LostRead<E>(start: E, records: seq<Record<E>>, k: nat)
    requires k < |records|
  {
    var r, last, keep := LastRelease(start, records, k), LastRefs(records, |records|), KeepRun(start, records, k).table;
    r > 0
    && exists i :: i in Asks(start, records, k) && i < SizeAt(records, r)
                   && i < |keep| && keep[i].Some? && i < |last| && last[i] <= r
  }

  /** None of the first `k` lines asks for a slot already released. */
  ghost predicate NoneLost<E>(start: E, records: seq<Record<E>>, k: nat)
    requires k <= |records|
  {
    forall j :: 0 <= j < k ==> !LostRead(start, records, j)
  }

  lemma NoneLostYet<E>(start: E, records: seq<Record<E>>)
    ensures NoneLost(start, records, 0)
  {}

  lemma NoneLostMore<E>(start: E, records: seq<Record<E>>, k: nat, count: nat)
    requires k < count <= |records|
    ensures NoneLost(start, records, k + 1) <==> NoneLost(start, records, k) && !LostRead(start, records, k)
    ensures NoneLost(start, records, count) ==> !LostRead(start, records, k)
  {
    hide LostRead;
  }

  // ------------------------------------------------------------------ the parser

  class Parser<E(!new)> {
    var exprs: Table
    var env: E
    var lineNo: nat
    const lifetimes: Lifetimes?
    /** The line of the last release. */
    ghost var releasedAt: nat

    constructor (env: E, lifetimes: Lifetimes?)
      ensures exprs == [] && this.env == env && lineNo == 0 && this.lifetimes == lifetimes && releasedAt == 0
    {
      exprs, lineNo, releasedAt := [], 0, 0;
      this.env, this.lifetimes := env, lifetimes;
    }

    method ExprAt(i: nat) returns (a: Answer)
      ensures a == Look(exprs, i)
    {
      if i >= |exprs| { return OutOfRange; }
      if exprs[i].None? { return Released; }
      a := Holds(exprs[i].value);
    }

    /** Lets a handler read the table. */
    method Drive<R>(p: Program<R>) returns (r: R)
      ensures r == Perform(p, exprs)
    {
      var got: seq<Answer> := [];
      while |got| < p.fields && p.ask(got).Some?
        invariant PerformFrom(p, exprs, got) == Perform(p, exprs)
        decreases p.fields - |got|
      {
        var a := ExprAt(p.ask(got).value);
        got := got + [a];
      }
      r := p.result(got);
    }

    method HandleLine(r: Record<E>) returns (h: Handled)
      modifies this`exprs, this`env
      ensures match r
              case Other => h == Ignored && exprs == old(exprs) && env == old(env)
              case Define(idx, _, _, e) =>
                env == old(env)
                && (var t := Perform(Reader(e), old(exprs));
                    if t.None? then h == Failed && exprs == old(exprs)
                    else h == Ignored && exprs == Grown(old(exprs), idx)[idx := t])
              case Declare(_, handler) => exprs == old(exprs) && (env, h) == Perform(handler(old(env)), old(exprs))
      ensures r.Define? && h != Failed ==> Written(old(exprs), exprs, r.idx, r.e)
    {
      hide Perform, Reader, Describes;
      match r
      case Other => h := Ignored;
      case Define(idx, _, _, e) =>
        var t := Drive(Reader(e));
        if t.None? { return Failed; }
        while |exprs| <= idx
          invariant env == old(env) && |old(exprs)| <= |exprs| <= MaxNat(|old(exprs)|, idx + 1)
          invariant forall i :: 0 <= i < |exprs| ==> exprs[i] == if i < |old(exprs)| then old(exprs)[i] else None
        {
          exprs := exprs + [None];
        }
        assert exprs == Grown(old(exprs), idx);
        exprs := exprs[idx := t];
        WrittenAt(old(exprs), idx, e);
        h := Ignored;
      case Declare(_, handler) =>
        var out := Drive(handler(env));
        env, h := out.0, out.1;
    }

    /** After `k` lines without failure: the table is the keeping run's, up to what has been released. */
    ghost predicate Stands(start: E, records: seq<Record<E>>, k: nat)
      requires k <= |records|
      reads this, lifetimes
    {
      var keep := KeepRun(start, records, k);
      lineNo == k && !keep.failed && env == keep.env
      && if lifetimes == null then exprs == keep.table
         else
           lifetimes.Valid() && lifetimes.last == LastRefs(records, |records|)
             && lifetimes.home == Homes(records, |lifetimes.last|)
           && releasedAt == LastRelease(start, records, k) && ReleasedAt(records, lifetimes.groupFirst, releasedAt)
           && Tracks(keep.table, exprs, lifetimes.last, lifetimes.groupFirst, releasedAt)
           && forall j :: 0 <= j < lifetimes.nextLong ==> lifetimes.long[j].0 <= releasedAt
    }

    /** Drops every slot whose last mention is behind the current line. */
    method ReleaseExpired()
      requires lifetimes != null ==>
                 lifetimes.Valid() && lifetimes.groupFirst <= |exprs|
                 && forall i :: 0 <= i < lifetimes.nodes && lifetimes.home[i] < lifetimes.last[i] <= lineNo ==>
                    i < |exprs|
      modifies this`exprs, this`releasedAt, lifetimes
      ensures lifetimes == null ==> exprs == old(exprs)
      ensures lifetimes != null ==>
                lifetimes.Valid() && lifetimes.groupFirst == |exprs| == |old(exprs)| && releasedAt == lineNo
                && old(lifetimes.log) <= lifetimes.log
                && Swept(old(exprs), exprs, lifetimes.short, lifetimes.long, lifetimes.log[|old(lifetimes.log)|..],
                         old(lifetimes.groupFirst), old(lifetimes.nextLong), lifetimes.nextLong, lineNo)
    {
      hide Lifetimes.Valid, Emptied, PassedTo, B.Test, ListedBetween;
      if lifetimes != null {
        ghost var before := exprs;
        ghost var released;
        exprs, released := lifetimes.ReleaseAfterDecl(lineNo, exprs);
        SizesKept(before, exprs, released);
        assert lifetimes.log[|old(lifetimes.log)|..] == released;
        releasedAt := lineNo;
      }
    }

    /** Handles one line, and releases what expired if it was a declaration or a failure. The line fails exactly
        when it fails in the keeping run or asks for a slot that was released. */
    method RunLine(start: E, records: seq<Record<E>>, k: nat) returns (h: Handled)
      requires k < |records| < NEVER && Stands(start, records, k) && Guarded(records[k])
      modifies this, lifetimes
      ensures h == Failed || h == Verdict(start, records, k)
      ensures h == Failed <==>
                Verdict(start, records, k) == Failed || (lifetimes != null && LostRead(start, records, k))
      ensures Reported(records[k]) ==> h == Verdict(start, records, k) && env == KeepRun(start, records, k + 1).env
      ensures records[k].Define? ==>
                (h == Failed <==> records[k].e.Unknown? || !Readable(old(exprs), Mentions(records[k].e)))
      ensures records[k].Define? && h != Failed ==> Written(old(exprs), exprs, records[k].idx, records[k].e)
      ensures h != Failed ==> Stands(start, records, k + 1)
      ensures h == Accepted && lifetimes != null ==> releasedAt == k + 1
      ensures lifetimes != null ==> lifetimes.Valid()
    {
      hide Perform, Lifetimes.Valid, Tracks, InStep, ReleasedAt, LastRefs, Homes, Swept, Reader, Reported, FailsClosed,
           Readable, Written, LostRead;
      if records[k].Define? { ReaderFails(records[k].e, exprs); }
      ghost var keep := KeepRun(start, records, k);
      ghost var table := exprs;
      if lifetimes != null {
        LineAlike(start, records, k, exprs, lifetimes.groupFirst, releasedAt);
        LineExact(start, records, k, exprs, lifetimes.groupFirst);
        TracksSizes(keep.table, exprs, lifetimes.last, lifetimes.groupFirst, releasedAt);
      }
      lineNo := lineNo + 1;
      h := HandleLine(records[k]);
      if h != Ignored {
        if lifetimes != null {
          MayRelease(start, records, k);
          lifetimes.Consistent();
        }
        ReleaseExpired();
        if h == Accepted && lifetimes != null {
          lifetimes.Consistent();
          AcceptedTracks(start, records, k, table, exprs, lifetimes.short, lifetimes.long,
                         lifetimes.log[|old(lifetimes.log)|..],
                         old(lifetimes.groupFirst), old(releasedAt), old(lifetimes.nextLong), lifetimes.nextLong);
        }
      }
    }

    /**
     Runs the first `count` lines. A run that accepts them ends in the environment of the run that
     keeps every node, which accepts them too: a read the first pass missed is an error, never a
     wrong term. It accepts exactly the lines the keeping run accepts without asking for a slot
     already released; when nothing read goes unreported there is no such line. After a
     declaration, the slots still holding a term are exactly the defined ones with a later mention.
     */
    method Run(start: E, records: seq<Record<E>>, count: nat) returns (ok: bool)
      requires count <= |records| < NEVER && forall k :: 0 <= k < |records| ==> Guarded(records[k])
      requires Stands(start, records, 0)
      modifies this, lifetimes
      ensures ok ==> !KeepRun(start, records, count).failed && env == KeepRun(start, records, count).env
      ensures lifetimes == null ==> (ok <==> !KeepRun(start, records, count).failed)
      ensures lifetimes != null ==>
                (ok <==> !KeepRun(start, records, count).failed && NoneLost(start, records, count))
      ensures AllReported(records, count) ==>
                (ok <==> !KeepRun(start, records, count).failed) && env == KeepRun(start, records, count).env
      ensures ok ==> Stands(start, records, count)
      ensures lifetimes != null ==> lifetimes.Valid()
      ensures ok && lifetimes != null && count > 0 && Verdict(start, records, count - 1) == Accepted ==>
                forall i :: 0 <= i < |exprs| ==>
                  exprs[i] == if LastRefs(records, |records|)[i] <= count then None
                    else KeepRun(start, records, count).table[i]
    {
      NoneLostYet(start, records);
      hide *;
      for k := 0 to count
        invariant Stands(start, records, k) && (lifetimes != null ==> NoneLost(start, records, k))
      {
        ok := RunNext(start, records, k, count);
        NoneLostMore(start, records, k, count);
        if !ok {
          AllReportedAt(records, count, k);
          return;
        }
      }
      StandsEnv(start, records, count);
      if lifetimes != null && count > 0 && Verdict(start, records, count - 1) == Accepted {
        ExactAfterDecl(start, records, count);
      }
      ok := true;
    }

    /** One line of a run of `count` lines. */
    method RunNext(start: E, records: seq<Record<E>>, k: nat, ghost count: nat) returns (ok: bool)
      requires k < count <= |records| < NEVER && Guarded(records[k]) && Stands(start, records, k)
      modifies this, lifetimes
      ensures lifetimes != null ==> lifetimes.Valid()
      ensures ok ==> Stands(start, records, k + 1) && (lifetimes != null ==> !LostRead(start, records, k))
      ensures !ok && Reported(records[k]) ==>
                KeepRun(start, records, count).failed && env == KeepRun(start, records, count).env
      ensures !ok && lifetimes == null ==> KeepRun(start, records, count).failed
      ensures !ok && lifetimes != null ==> KeepRun(start, records, count).failed || LostRead(start, records, k)
    {
      StandsEnv(start, records, k);
      hide *;
      var h := RunLine(start, records, k);
      VerdictFails(start, records, k);
      if h == Failed && Verdict(start, records, k) == Failed { FailedStays(start, records, k + 1, count); }
      ok := h != Failed;
    }

    lemma StandsEnv(start: E, records: seq<Record<E>>, k: nat)
      requires k <= |records| && Stands(start, records, k)
      ensures !KeepRun(start, records, k).failed && env == KeepRun(start, records, k).env
      ensures lifetimes != null ==> lifetimes.Valid()
    {}

    lemma StandsSize(start: E, records: seq<Record<E>>, k: nat)
      requires k <= |records| && Stands(start, records, k)
      ensures |exprs| == |KeepRun(start, records, k).table|
    {}

    lemma ExactAfterDecl(start: E, records: seq<Record<E>>, k: nat)
      requires 0 < k <= |records| && Stands(start, records, k) && lifetimes != null
      requires Verdict(start, records, k - 1) == Accepted
      ensures |exprs| <= |LastRefs(records, |records|)| && |exprs| == |KeepRun(start, records, k).table|
      ensures forall i :: 0 <= i < |exprs| ==>
                exprs[i] == if LastRefs(records, |records|)[i] <= k then None else KeepRun(start, records, k).table[i]
    {
      hide Perform, Lifetimes.Valid, LastRefs, Homes;
      SizesMatch(start, records, k);
      assert |LastRefs(records, k)| == |LastRefs(records, k - 1)| by { DeclKeepsSize(records, k - 1); }
    }
  }

  lemma DeclKeepsSize<E>(records: seq<Record<E>>, k: nat)
    requires k < |records| && records[k].Declare?
    ensures |LastRefs(records, k + 1)| == |LastRefs(records, k)|
  {}

  lemma VerdictFails<E>(start: E, records: seq<Record<E>>, k: nat)
    requires k < |records| && !KeepRun(start, records, k).failed
    ensures Verdict(start, records, k) == Failed <==> KeepRun(start, records, k + 1).failed
  {
    hide Perform, Reader;
  }

  lemma {:induction false} FailedStays<E>(start: E, records: seq<Record<E>>, j: nat, k: nat)
    requires j <= k <= |records| && KeepRun(start, records, j).failed
    ensures KeepRun(start, records, k) == KeepRun(start, records, j)
  {
    if j < k { FailedStays(start, records, j, k - 1); }
  }

  lemma AllReportedAt<E(!new)>(records: seq<Record<E>>, count: nat, k: nat)
    requires k < count <= |records|
    ensures AllReported(records, count) ==> Reported(records[k])
  {}

  ghost predicate AllReported<E(!new)>(records: seq<Record<E>>, count: nat)
    requires count <= |records|
  {
    forall k :: 0 <= k < count ==> Reported(records[k])
  }

  /** The whole file: first pass, then the releasing run. What it accepts, the keeping run accepts with the
      same environment. Their verdicts differ exactly when the keeping run accepts and some line asks for a
      slot already released; when every read is reported, the two cannot be told apart. */
  method RunFile<E(!new)>(start: E, records: seq<Record<E>>) returns (ok: bool, env: E, lt: Lifetimes)
    requires |records| < NEVER && forall k :: 0 <= k < |records| ==> Guarded(records[k])
    ensures ok ==> !KeepRun(start, records, |records|).failed && env == KeepRun(start, records, |records|).env
    ensures ok <==> !KeepRun(start, records, |records|).failed && NoneLost(start, records, |records|)
    ensures AllReported(records, |records|) ==>
              (ok <==> !KeepRun(start, records, |records|).failed) && env == KeepRun(start, records, |records|).env
    ensures fresh(lt) && forall i, j :: 0 <= i < j < |lt.log| ==> lt.log[i] != lt.log[j]
  {
    hide LastRefs, Home, Homes, Reported, FailsClosed, Tables, NoneLost;
    lt := Scan(records);
    var parser := new Parser(start, lt);
    ok := parser.Run(start, records, |records|);
    env := parser.env;
  }

  /** One sweep: the bulk of the group just closed, and the list up to the current line. */
  ghost predicate Swept(before: Table, after: Table, short: seq<nat>, long: seq<(nat, nat)>, released: seq<nat>,
                        groupFirst: nat, from: nat, to: nat, line: nat)
  {
    Emptied(before, after, released) && PassedTo(long, from, to, line)
    && forall i: nat :: i in released <==>
       (groupFirst <= i < |before| && B.Test(short, i)) || ListedBetween(long, from, to, i)
  }

  lemma ReaderWithin(e: ExprRecord, refs: seq<nat>)
    requires forall i :: i in Mentions(e) ==> i in refs
    ensures Within(Reader(e), refs)
  {}

  lemma TracksEmptier(keep: Table, table: Table, last: seq<nat>, groupFirst: nat, released: nat)
    requires Tracks(keep, table, last, groupFirst, released)
    ensures Emptier(table, keep)
  {}

  /** Line `k + 1` comes to the same result on the releasing table as on the keeping one, or fails;
      if it reads nothing unreported, to the same result. */
  lemma LineAlike<E(!new)>(start: E, records: seq<Record<E>>, k: nat, table: Table, groupFirst: nat, released: nat)
    requires k < |records| < NEVER && Guarded(records[k]) && !KeepRun(start, records, k).failed && released <= k
    requires Tracks(KeepRun(start, records, k).table, table, LastRefs(records, |records|), groupFirst, released)
    ensures var keep := KeepRun(start, records, k);
            var last := LastRefs(records, |records|);
            match records[k]
            case Other => true
            case Define(idx, _, _, e) =>
              var t := Perform(Reader(e), keep.table);
              (Perform(Reader(e), table) == t || Perform(Reader(e), table) == None)
              && (Reported(records[k]) ==> Perform(Reader(e), table) == t)
              && Tracks(Grown(keep.table, idx)[idx := t], Grown(table, idx)[idx := t], last, groupFirst, released)
            case Declare(_, handler) =>
              var p := handler(keep.env);
              (Perform(p, table) == Perform(p, keep.table) || Perform(p, table).1 == Failed)
              && (Reported(records[k]) ==> Perform(p, table) == Perform(p, keep.table))
  {
    hide Tracks, LastRefs, Within, KeepStep, KeepRun, PerformFrom, Grown, Look;
    var keep := KeepRun(start, records, k);
    SizesMatch(start, records, k);
    TracksSizes(keep.table, table, LastRefs(records, |records|), groupFirst, released);
    LineAnswers(records, k, keep.table, table, groupFirst, released);
    TracksEmptier(keep.table, table, LastRefs(records, |records|), groupFirst, released);
    match records[k]
    case Other =>
    case Define(idx, refs, _, e) =>
      if Reported(records[k]) {
        ReaderWithin(e, refs);
        PerformAlike(Reader(e), refs, table, keep.table, []);
      }
      ghost var all := PerformOrReleased(Reader(e), table, keep.table, []);
      MentionedLater(records, k, idx);
      DefineTracks(keep.table, table, LastRefs(records, |records|), groupFirst, released, k, idx,
                   Perform(Reader(e), keep.table));
    case Declare(refs, handler) =>
      if Reported(records[k]) { PerformAlike(handler(keep.env), refs, table, keep.table, []); }
      ghost var all := PerformOrReleased(handler(keep.env), table, keep.table, []);
  }

  /** The two tables answer differently exactly on what was released. */
  lemma Differs(keep: Table, table: Table, last: seq<nat>, groupFirst: nat, released: nat, i: nat)
    requires Tracks(keep, table, last, groupFirst, released)
    ensures Look(table, i) != Look(keep, i) <==>
              i < groupFirst && i < |keep| && keep[i].Some? && last[i] <= released
  {}

  /** A line all of whose reads are reported asks for nothing that was released. */
  lemma ReportedKept<E(!new)>(start: E, records: seq<Record<E>>, k: nat, table: Table, groupFirst: nat, released: nat,
                              i: nat)
    requires k < |records| < NEVER && Reported(records[k]) && !KeepRun(start, records, k).failed && released <= k
    requires Tracks(KeepRun(start, records, k).table, table, LastRefs(records, |records|), groupFirst, released)
    requires i in Asks(start, records, k)
    ensures Look(table, i) == Look(KeepRun(start, records, k).table, i)
  {
    hide Tracks, LastRefs, Within, KeepRun, Look;
    var keep := KeepRun(start, records, k);
    SizesMatch(start, records, k);
    TracksSizes(keep.table, table, LastRefs(records, |records|), groupFirst, released);
    LineAnswers(records, k, keep.table, table, groupFirst, released);
    match records[k]
    case Define(_, refs, _, e) =>
      ReaderWithin(e, refs);
      AskedWithin(Reader(e), refs, keep.table, []);
    case Declare(refs, handler) => AskedWithin(handler(keep.env), refs, keep.table, []);
  }

  /** Line `k + 1` fails on the releasing table if it asks for a slot that was released, and otherwise comes to
      the same result as on the keeping one. */
  lemma LineExact<E(!new)>(start: E, records: seq<Record<E>>, k: nat, table: Table, groupFirst: nat)
    requires k < |records| < NEVER && Guarded(records[k]) && !KeepRun(start, records, k).failed
    requires ReleasedAt(records, groupFirst, LastRelease(start, records, k))
    requires Tracks(KeepRun(start, records, k).table, table, LastRefs(records, |records|), groupFirst,
                    LastRelease(start, records, k))
    ensures Reported(records[k]) ==> !LostRead(start, records, k)
    ensures var keep := KeepRun(start, records, k);
            match records[k]
            case Other => !LostRead(start, records, k)
            case Define(_, _, _, e) =>
              Perform(Reader(e), table) == if LostRead(start, records, k) then None else Perform(Reader(e), keep.table)
            case Declare(_, handler) =>
              var p := handler(keep.env);
              if LostRead(start, records, k) then Perform(p, table).1 == Failed
                 else Perform(p, table) == Perform(p, keep.table)
  {
    hide Tracks, LastRefs, KeepRun, Look, PerformFrom, AskedFrom, Reported;
    var keep := KeepRun(start, records, k);
    var last, r := LastRefs(records, |records|), LastRelease(start, records, k);
    TracksSizes(keep.table, table, last, groupFirst, r);
    TracksEmptier(keep.table, table, last, groupFirst, r);
    forall i: nat ensures Look(table, i) != Look(keep.table, i) <==>
                       i < groupFirst && i < |keep.table| && keep.table[i].Some? && last[i] <= r {
      Differs(keep.table, table, last, groupFirst, r, i);
    }
    if LostRead(start, records, k) {
      var i :| i in Asks(start, records, k) && i < SizeAt(records, r)
               && i < |keep.table| && keep.table[i].Some? && i < |last| && last[i] <= r;
      if Reported(records[k]) { ReportedKept(start, records, k, table, groupFirst, r, i); }
      match records[k]
      case Define(_, _, _, e) =>
        var all := AskedReleased(Reader(e), table, keep.table, [], i);
      case Declare(_, handler) =>
        var all := AskedReleased(handler(keep.env), table, keep.table, [], i);
    } else {
      match records[k]
      case Other =>
      case Define(_, _, _, e) => AskedAlike(Reader(e), table, keep.table, []);
      case Declare(_, handler) => AskedAlike(handler(keep.env), table, keep.table, []);
    }
  }

  /** At any line the list only names slots the table has. */
  lemma MayRelease<E>(start: E, records: seq<Record<E>>, k: nat)
    requires k < |records| < NEVER && !KeepRun(start, records, k).failed
    ensures var last := LastRefs(records, |records|);
            var home := Homes(records, |last|);
            forall i :: 0 <= i < |last| && home[i] < last[i] <= k + 1 ==> i < |KeepRun(start, records, k).table|
  {
    hide LastRefs, Home, KeepRun;
    SizesMatch(start, records, k);
    var last := LastRefs(records, |records|);
    forall i | 0 <= i < |last| && Home(records, i) <= k ensures i < |LastRefs(records, k)| {
      HomeDefines(records, k, i);
    }
  }

  lemma AcceptedTracks<E>(start: E, records: seq<Record<E>>, k: nat, table: Table, after: Table, short: seq<nat>,
                          long: seq<(nat, nat)>,
                          released: seq<nat>, groupFirst: nat, before: nat, from: nat, to: nat)
    requires k < |records| < NEVER && records[k].Declare? && !KeepRun(start, records, k).failed
    requires before <= k && ReleasedAt(records, groupFirst, before)
    requires var last := LastRefs(records, |records|);
             Tables(short, long, last, Homes(records, |last|))
               && Tracks(KeepRun(start, records, k).table, table, last, groupFirst, before)
    requires Swept(table, after, short, long, released, groupFirst, from, to, k + 1)
    requires forall j :: 0 <= j < from <= |long| ==> long[j].0 <= before
    ensures Tracks(KeepRun(start, records, k).table, after, LastRefs(records, |records|), |table|, k + 1)
    ensures ReleasedAt(records, |table|, k + 1)
    ensures forall j :: 0 <= j < to <= |long| ==> long[j].0 <= k + 1
  {
    hide LastRefs, Home, KeepRun, Tables, Emptied, B.Test, ListedBetween, InStep;
    var last := LastRefs(records, |records|);
    var keep := KeepRun(start, records, k).table;
    SizesMatch(start, records, k);
    TracksSizes(keep, table, last, groupFirst, before);
    InStepAt(records, k, groupFirst, before);
    assert DeclAt(records, k + 1) && SizeAt(records, k + 1) == |table|;
    forall i | 0 <= i < |table| ensures Home(records, i) <= k + 1 { HomeBy(records, k, i); }
    ReleaseTracks(keep, table, after, released, short, long, last, Homes(records, |last|), groupFirst, before, from, to,
                  k, k + 1);
  }

  lemma TracksNothing(last: seq<nat>)
    ensures Tracks([], [], last, 0, 0)
  {}

  lemma TracksSizes(keep: Table, table: Table, last: seq<nat>, groupFirst: nat, released: nat)
    requires Tracks(keep, table, last, groupFirst, released)
    ensures |table| == |keep| <= |last| && groupFirst <= |table|
  {}

  function RefsOf<E>(r: Record<E>): seq<nat> {
    match r
    case Define(_, refs, _, _) => refs
    case Declare(refs, _) => refs
    case Other => []
  }

  lemma LineAnswers<E>(records: seq<Record<E>>, k: nat, keep: Table, table: Table, groupFirst: nat, released: nat)
    requires k < |records| && released <= k && |table| == |LastRefs(records, k)|
    requires Tracks(keep, table, LastRefs(records, |records|), groupFirst, released)
    ensures forall i :: i in RefsOf(records[k]) ==> Look(table, i) == Look(keep, i)
  {
    hide LastRefs;
    forall i | i in RefsOf(records[k]) && i < |table| ensures LastRefs(records, |records|)[i] > k {
      MentionedLater(records, k, i);
    }
    AnswersAlike(keep, table, LastRefs(records, |records|), groupFirst, released, k, RefsOf(records[k]));
  }

  // ------------------------------------------------------------ an unreported read

  /** Two sorts, a declaration, and an application of which the first pass saw one field only. */
  function UnreportedLines(): seq<Record<nat>> {
    var sort := Layer(SortD(L.Zero));
    [Define(0, [], [], sort),
     Define(1, [], [], sort),
     Declare([], (env: nat) => Program(0, _ => None, _ => (env, Accepted))),
     Define(2, [1], [], Layer(AppD(1, 0)))]
  }

  /** The keeping run accepts these lines; the releasing run answers with an error, not with a term. */
  method RunUnreported() returns (ok: bool)
    ensures !KeepRun(0, UnreportedLines(), 4).failed && !Reported(UnreportedLines()[3])
    ensures !ok
  {
    var records := UnreportedLines();
    UnreportedScan();
    UnreportedKeeps();
    UnreportedReports();
    hide LastRefs, Reported, FailsClosed, Reader, Perform, KeepStep, Home;
    var lt := Scan(records);
    var parser := new Parser(0, lt);
    TracksNothing(LastRefs(records, 4));
    var accepted := parser.Run(0, records, 3);
    parser.StandsSize(0, records, 3);
    assert Look(parser.exprs, 0) == Released && 0 in Mentions(records[3].e);
    var h := parser.RunLine(0, records, 3);
    ok := accepted && h != Failed;
  }

  /** Slot 0 is last mentioned where it is defined, so the declaration releases it. */
  lemma UnreportedScan()
    ensures LastRefs(UnreportedLines(), 4) == [1, 4, 4]
  {
    var records := UnreportedLines();
    assert LastRefs(records, 1) == [1];
    assert LastRefs(records, 2) == [1, 2];
    assert LastRefs(records, 3) == [1, 2];
  }

  lemma UnreportedKeeps()
    ensures var records := UnreportedLines();
            !KeepRun(0, records, 4).failed && !KeepRun(0, records, 3).failed && |KeepRun(0, records, 3).table| == 2
            && Verdict(0, records, 2) == Accepted
  {
    hide Perform, Reader, Grown;
    var records := UnreportedLines();
    var sort := Some(Sort(L.Zero));
    SortReads([]);
    SortReads([sort]);
    assert KeepRun(0, records, 0) == State([], 0, false);
    assert Grown([], 0)[0 := sort] == [sort] && Grown([sort], 1)[1 := sort] == [sort, sort];
    assert KeepRun(0, records, 1) == State([sort], 0, false);
    assert KeepRun(0, records, 2) == State([sort, sort], 0, false);
    AcceptPerforms([sort, sort]);
    assert KeepRun(0, records, 3) == State([sort, sort], 0, false);
    assert Readable([sort, sort], Mentions(records[3].e));
    ReaderFails(records[3].e, [sort, sort]);
  }

  lemma SortReads(table: Table)
    ensures Perform(Reader(Layer(SortD(L.Zero))), table) == Some(Sort(L.Zero))
  {}

  lemma AcceptPerforms(table: Table)
    ensures Perform(UnreportedLines()[2].handler(0), table) == (0, Accepted)
  {}

  lemma UnreportedReports()
    ensures var records := UnreportedLines();
            (forall k :: 0 <= k < 4 ==> Guarded(records[k])) && AllReported(records, 3) && !Reported(records[3])
  {
    assert 0 in Children(AppD(1, 0)) && 0 !in [1];
  }
}
