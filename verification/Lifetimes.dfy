/**
 Lifetimes of export nodes: one pass finds the last line mentioning each index; after each
 declaration the indices whose last line is past are released, short-lived ones in bulk,
 long-lived ones from a sorted list.
 */
module Lifetimes {
  import opened Naturals
  import opened Terms
  import opened Export
  import B = BitSets

  /** Stands for "no declaration follows". */
  const NEVER: nat := 0xFFFF_FFFF

  // ------------------------------------------------------------ what the scan computes

  function Mark(last: seq<nat>, refs: seq<nat>, line: nat): (r: seq<nat>)
    ensures |r| == |last| && forall i :: 0 <= i < |last| ==> r[i] == if i in refs then line else last[i]
  {
    seq(|last|, i requires 0 <= i < |last| => if i in refs then line else last[i])
  }

  function Padded(last: seq<nat>, idx: nat): (r: seq<nat>)
    ensures |r| == MaxNat(|last|, idx + 1) && forall i :: 0 <= i < |r| ==> r[i] == if i < |last| then last[i] else 0
  {
    seq(MaxNat(|last|, idx + 1), i requires 0 <= i < MaxNat(|last|, idx + 1) => if i < |last| then last[i] else 0)
  }

  /** The last line among the first `k` that mentions each index; 0 for one never mentioned. */
  function LastRefs<E>(records: seq<Record<E>>, k: nat): seq<nat>
    requires k <= |records|
  {
    if k == 0 then []
    else
      var before := LastRefs(records, k - 1);
      match records[k - 1]
      case Define(idx, refs, _, _) => Padded(Mark(before, refs, k), idx)[idx := k]
      case Declare(refs, _) => Mark(before, refs, k)
      case Other => before
  }

  /** The declaration lines among the first `k`. */
  function DeclLines<E>(records: seq<Record<E>>, k: nat): seq<nat>
    requires k <= |records|
  {
    if k == 0 then [] else if records[k - 1].Declare? then DeclLines(records, k - 1) + [k]
       else DeclLines(records, k - 1)
  }

  /** How many indices were defined at each of them. */
  function DeclFirst<E>(records: seq<Record<E>>, k: nat): seq<nat>
    requires k <= |records|
  {
    if k == 0 then []
    else if records[k - 1].Declare? then DeclFirst(records, k - 1) + [|LastRefs(records, k - 1)|]
    else DeclFirst(records, k - 1)
  }

  /** The line of the first declaration, from group `g` on, by which index `i` was in the table. */
  function HomeFrom(lines: seq<nat>, first: seq<nat>, g: nat, i: nat): nat
    requires |lines| == |first|
    decreases |first| - g
  {
    if g >= |first| then NEVER else if first[g] > i then lines[g] else HomeFrom(lines, first, g + 1, i)
  }

  lemma DeclSizes<E>(records: seq<Record<E>>, k: nat)
    requires k <= |records|
    ensures |DeclLines(records, k)| == |DeclFirst(records, k)|
  {}

  function Home<E>(records: seq<Record<E>>, i: nat): nat {
    DeclSizes(records, |records|);
    HomeFrom(DeclLines(records, |records|), DeclFirst(records, |records|), 0, i)
  }

  ghost predicate Referenced<E>(records: seq<Record<E>>, k: nat, name: nat)
    requires k <= |records|
  {
    exists j :: 0 <= j < k && records[j].Define? && name in records[j].names
  }

  // --------------------------------------------------------- what the numbers mean

  /** Entries only move forward, and the table only grows. */
  lemma {:induction false} LastRefsForward<E>(records: seq<Record<E>>, j: nat, k: nat)
    requires j <= k <= |records|
    ensures var a, b := LastRefs(records, j), LastRefs(records, k);
            |a| <= |b|
            && (forall i :: 0 <= i < |a| ==> b[i] == a[i] || b[i] > j)
            && (forall i :: |a| <= i < |b| ==> b[i] == 0 || b[i] > j)
            && forall i :: 0 <= i < |b| ==> b[i] <= k
  {
    if j < k {
      LastRefsForward(records, j, k - 1);
    } else if j > 0 {
      LastRefsForward(records, j - 1, j - 1);
    }
  }

  /** By line `k` the table reaches up to `i`. */
  ghost predicate Reached<E>(records: seq<Record<E>>, k: nat, i: nat)
    requires k <= |records|
  {
    exists m :: 0 <= m < k && records[m].Define? && i <= records[m].idx
  }

  /** Line `k + 1` defines index `i`, or mentions it when the table already reaches up to it. */
  ghost predicate Touches<E>(records: seq<Record<E>>, k: nat, i: nat)
    requires k < |records|
  {
    match records[k]
    case Define(idx, refs, _, _) => i == idx || (i in refs && Reached(records, k, i))
    case Declare(refs, _) => i in refs && Reached(records, k, i)
    case Other => false
  }

  lemma ReachedMore<E>(records: seq<Record<E>>, k: nat, i: nat)
    requires k < |records|
    ensures Reached(records, k + 1, i) <==> Reached(records, k, i) || (records[k].Define? && i <= records[k].idx)
  {}

  lemma NotTouchedBefore<E>(records: seq<Record<E>>, k: nat, i: nat)
    requires k <= |records| && !Reached(records, k, i)
    ensures forall j :: 0 <= j < k ==> !Touches(records, j, i)
  {
    forall j | 0 <= j < k ensures !Reached(records, j, i) {}
  }

  /** The recorded line is the very last one to define or mention the index, and 0 stands for none. */
  lemma {:induction false} LastRefsExact<E>(records: seq<Record<E>>, k: nat, i: nat)
    requires k <= |records|
    ensures i < |LastRefs(records, k)| <==> Reached(records, k, i)
    ensures i < |LastRefs(records, k)| ==>
              var line := LastRefs(records, k)[i];
              line <= k && (line > 0 ==> Touches(records, line - 1, i))
              && forall j :: line <= j < k ==> !Touches(records, j, i)
  {
    if k > 0 {
      LastRefsExact(records, k - 1, i);
      ReachedMore(records, k - 1, i);
      hide Reached;
      assert Touches(records, k - 1, i) ==> i < |LastRefs(records, k)|;
      if i < |LastRefs(records, k)| && i >= |LastRefs(records, k - 1)| {
        NotTouchedBefore(records, k - 1, i);
      }
    }
  }

  /** Whatever line `k + 1` mentions, or defines, is not past its last line yet. */
  lemma MentionedLater<E>(records: seq<Record<E>>, k: nat, i: nat)
    requires k < |records|
    requires match records[k]
             case Define(idx, refs, _, _) => i == idx || (i in refs && i < |LastRefs(records, k)|)
             case Declare(refs, _) => i in refs && i < |LastRefs(records, k)|
             case Other => false
    ensures i < |LastRefs(records, |records|)| && LastRefs(records, |records|)[i] > k
  {
    assert LastRefs(records, k + 1)[i] == k + 1;
    LastRefsForward(records, k + 1, |records|);
  }

  predicate DeclAt<E>(records: seq<Record<E>>, line: nat) { 1 <= line <= |records| && records[line - 1].Declare? }

  function SizeAt<E>(records: seq<Record<E>>, line: nat): nat
    requires DeclAt(records, line)
  {
    |LastRefs(records, line - 1)|
  }

  /** `lines` are the declaration lines among the first `k`, in order, with the table size at each. */
  ghost predicate DeclsListed<E>(records: seq<Record<E>>, k: nat, lines: seq<nat>, first: seq<nat>) {
    |lines| == |first|
    && (forall g :: 0 <= g < |lines| ==>
        lines[g] <= k && DeclAt(records, lines[g]) && first[g] == SizeAt(records, lines[g]))
    && (forall g, h :: 0 <= g < h < |lines| ==> lines[g] < lines[h])
    && forall line: nat :: line <= k && DeclAt(records, line) ==> line in lines
  }

  lemma {:induction false} DeclFacts<E>(records: seq<Record<E>>, k: nat)
    requires k <= |records|
    ensures DeclsListed(records, k, DeclLines(records, k), DeclFirst(records, k))
  {
    hide LastRefs, SizeAt;
    if k > 0 {
      DeclFacts(records, k - 1);
      DeclsListedMore(records, k - 1, DeclLines(records, k - 1), DeclFirst(records, k - 1));
    }
  }

  lemma DeclsListedMore<E>(records: seq<Record<E>>, k: nat, lines: seq<nat>, first: seq<nat>)
    requires k < |records| && DeclsListed(records, k, lines, first)
    ensures if records[k].Declare? then DeclsListed(records, k + 1, lines + [k + 1], first + [|LastRefs(records, k)|])
            else DeclsListed(records, k + 1, lines, first)
  {
    if records[k].Declare? {
      assert DeclAt(records, k + 1) && SizeAt(records, k + 1) == |LastRefs(records, k)|;
    }
    hide SizeAt;
    forall line: nat | line <= k + 1 && DeclAt(records, line) && line != k + 1 ensures line in lines {}
  }

  lemma {:induction false} HomeFromIs(lines: seq<nat>, first: seq<nat>, g: nat, h: nat, i: nat)
    requires |lines| == |first| && g <= h <= |first|
    requires (forall x :: g <= x < h ==> first[x] <= i) && (h < |first| ==> first[h] > i)
    ensures HomeFrom(lines, first, g, i) == if h < |first| then lines[h] else NEVER
    decreases h - g
  {
    if g < h { HomeFromIs(lines, first, g + 1, h, i); }
  }

  lemma {:induction false} HomeFromFound(lines: seq<nat>, first: seq<nat>, g: nat, i: nat) returns (h: nat)
    requires |lines| == |first| && g <= |first|
    ensures g <= h <= |first| && (forall x :: g <= x < h ==> first[x] <= i) && (h < |first| ==> first[h] > i)
    ensures HomeFrom(lines, first, g, i) == if h < |first| then lines[h] else NEVER
    decreases |first| - g
  {
    if g < |first| && first[g] <= i { h := HomeFromFound(lines, first, g + 1, i); } else { h := g; }
  }

  /** An index in the table at a declaration has its home there or earlier. */
  lemma HomeBy<E>(records: seq<Record<E>>, k: nat, i: nat)
    requires k < |records| && records[k].Declare? && i < |LastRefs(records, k)|
    ensures 1 <= Home(records, i) <= k + 1
  {
    var lines, first := DeclLines(records, |records|), DeclFirst(records, |records|);
    DeclFacts(records, |records|);
    assert DeclAt(records, k + 1) && SizeAt(records, k + 1) == |LastRefs(records, k)|;
    var g :| 0 <= g < |lines| && lines[g] == k + 1;
    var h := HomeFromFound(lines, first, 0, i);
    assert h <= g;
    assert lines[h] <= lines[g];
  }

  /** An index that outlives its home was in the table at that home. */
  lemma HomeDefines<E>(records: seq<Record<E>>, k: nat, i: nat)
    requires k < |records| < NEVER && Home(records, i) <= k
    ensures Home(records, i) >= 1 && i < |LastRefs(records, k)|
  {
    var lines, first := DeclLines(records, |records|), DeclFirst(records, |records|);
    DeclFacts(records, |records|);
    var h := HomeFromFound(lines, first, 0, i);
    LastRefsForward(records, lines[h] - 1, k);
  }

  // ----------------------------------------------------------------- the scan

  method MarkRefs(last: seq<nat>, refs: seq<nat>, line: nat) returns (r: seq<nat>)
    ensures r == Mark(last, refs, line)
  {
    r := last;
    var defined := |last|;
    for k := 0 to |refs|
      invariant |r| == |last|
      invariant forall i :: 0 <= i < |last| ==> r[i] == if i in refs[..k] then line else last[i]
    {
      assert refs[..k + 1] == refs[..k] + [refs[k]];
      if refs[k] < defined { r := r[refs[k] := line]; }
    }
    assert refs[..|refs|] == refs;
  }

  method MarkNames(words: seq<nat>, names: seq<nat>) returns (r: seq<nat>)
    requires B.Fit(words)
    ensures B.Fit(r) && forall n: nat :: B.Test(r, n) <==> B.Test(words, n) || n in names
  {
    hide B.Insert, B.Test, B.Fit;
    r := words;
    for k := 0 to |names|
      invariant B.Fit(r) && forall n: nat :: B.Test(r, n) <==> B.Test(words, n) || n in names[..k]
    {
      assert names[..k + 1] == names[..k] + [names[k]];
      var before := r;
      B.InsertFit(before, names[k]);
      forall n: nat ensures B.Test(B.Insert(before, names[k]), n) <==> n == names[k] || B.Test(before, n) {
        B.InsertTest(before, names[k], n);
      }
      r := B.Insert(before, names[k]);
    }
    assert names[..|names|] == names;
  }

  /** The first loop: last lines, declaration lines, and the names mentioned by expressions. */
  method ReadLines<E>(records: seq<Record<E>>)
    returns (last: seq<nat>, lines: seq<nat>, first: seq<nat>, words: seq<nat>)
    ensures last == LastRefs(records, |records|)
    ensures lines == DeclLines(records, |records|) && first == DeclFirst(records, |records|)
    ensures B.Fit(words) && forall n: nat :: B.Test(words, n) <==> Referenced(records, |records|, n)
  {
    hide B.Test, B.Fit, Referenced;
    last, lines, first, words := [], [], [], [];
    NoNames(records);
    for k := 0 to |records|
      invariant last == LastRefs(records, k)
      invariant lines == DeclLines(records, k) && first == DeclFirst(records, k)
      invariant B.Fit(words) && forall n: nat :: B.Test(words, n) <==> Referenced(records, k, n)
    {
      forall n: nat
        ensures Referenced(records, k + 1, n) <==>
                  Referenced(records, k, n) || (records[k].Define? && n in records[k].names)
      {
        ReferencedMore(records, k, n);
      }
      match records[k] {
        case Define(idx, refs, names, _) =>
          words := MarkNames(words, names);
          last := MarkRefs(last, refs, k + 1);
          last := Padded(last, idx);
          last := last[idx := k + 1];
        case Declare(refs, _) =>
          first := first + [|last|];
          last := MarkRefs(last, refs, k + 1);
          lines := lines + [k + 1];
        case Other =>
      }
    }
  }

  lemma ReferencedMore<E>(records: seq<Record<E>>, k: nat, n: nat)
    requires k < |records|
    ensures Referenced(records, k + 1, n) <==>
              Referenced(records, k, n) || (records[k].Define? && n in records[k].names)
  {}

  lemma NoNames<E>(records: seq<Record<E>>)
    ensures B.Fit([]) && forall n: nat :: !B.Test([], n) && !Referenced(records, 0, n)
  {}

  predicate Less(p: (nat, nat), q: (nat, nat)) { p.0 < q.0 || (p.0 == q.0 && p.1 < q.1) }

  function InsertPair(s: seq<(nat, nat)>, p: (nat, nat)): seq<(nat, nat)> {
    if s == [] || Less(p, s[0]) then [p] + s else [s[0]] + InsertPair(s[1..], p)
  }

  function SortPairs(s: seq<(nat, nat)>): seq<(nat, nat)> {
    if s == [] then [] else InsertPair(SortPairs(s[..|s| - 1]), s[|s| - 1])
  }

  ghost predicate Sorted(s: seq<(nat, nat)>) { forall i, j :: 0 <= i < j < |s| ==> Less(s[i], s[j]) }

  lemma {:induction false} InsertPairSorts(s: seq<(nat, nat)>, p: (nat, nat))
    requires Sorted(s) && p !in s
    ensures Sorted(InsertPair(s, p)) && forall q :: q in InsertPair(s, p) <==> q == p || q in s
    decreases |s|
  {
    if s != [] && !Less(p, s[0]) {
      assert s == [s[0]] + s[1..];
      InsertPairSorts(s[1..], p);
      var tail := InsertPair(s[1..], p);
      forall q | q in tail ensures Less(s[0], q) {
        if q != p {
          var k :| 0 <= k < |s[1..]| && s[1..][k] == q;
          assert s[k + 1] == q;
        }
      }
      ConsSorted(s[0], tail);
    } else {
      forall q | q in s ensures Less(p, q) {
        var k :| 0 <= k < |s| && s[k] == q;
        assert k > 0 ==> Less(s[0], s[k]);
      }
      ConsSorted(p, s);
    }
  }

  lemma ConsSorted(p: (nat, nat), s: seq<(nat, nat)>)
    requires Sorted(s) && forall q :: q in s ==> Less(p, q)
    ensures Sorted([p] + s)
  {
    var whole := [p] + s;
    forall i, j | 0 <= i < j < |whole| ensures Less(whole[i], whole[j]) {
      assert whole[j] == s[j - 1];
      if i > 0 { assert whole[i] == s[i - 1]; }
    }
  }

  lemma {:induction false} SortPairsSorts(s: seq<(nat, nat)>)
    requires forall i, j :: 0 <= i < j < |s| ==> s[i] != s[j]
    ensures Sorted(SortPairs(s)) && forall q :: q in SortPairs(s) <==> q in s
    decreases |s|
  {
    if s != [] {
      var front, p := s[..|s| - 1], s[|s| - 1];
      assert s == front + [p];
      SortPairsSorts(front);
      InsertPairSorts(SortPairs(front), p);
    }
  }

  /** The bulk bits and the sorted list, from the last lines and the declaration groups. */
  ghost predicate SplitOk(last: seq<nat>, lines: seq<nat>, first: seq<nat>, k: nat, short: seq<nat>,
                          long: seq<(nat, nat)>)
    requires |lines| == |first| && k <= |last|
  {
    (forall i: nat :: B.Test(short, i) <==> i < k && last[i] <= HomeFrom(lines, first, 0, i))
    && forall p: (nat, nat) :: p in long <==> p.1 < k && p.0 == last[p.1] && p.0 > HomeFrom(lines, first, 0, p.1)
  }

  method Split(last: seq<nat>, lines: seq<nat>, first: seq<nat>) returns (short: seq<nat>, long: seq<(nat, nat)>)
    requires |lines| == |first| && forall g, h :: 0 <= g < h < |first| ==> first[g] <= first[h]
    ensures SplitOk(last, lines, first, |last|, short, long) && Sorted(long)
  {
    hide B.Test, B.Insert, HomeFrom;
    short := B.Zeros((|last| + 63) / 64);
    forall i: nat ensures !B.Test(short, i) { B.ZerosTest((|last| + 63) / 64, i); }
    long := [];
    var group := 0;
    for idx := 0 to |last|
      invariant group <= |first| && forall g :: 0 <= g < group ==> first[g] <= idx
      invariant SplitOk(last, lines, first, idx, short, long)
      invariant forall i, j :: 0 <= i < j < |long| ==> long[i] != long[j]
    {
      while group < |first| && first[group] <= idx
        invariant group <= |first| && forall g :: 0 <= g < group ==> first[g] <= idx
      {
        group := group + 1;
      }
      HomeFromIs(lines, first, 0, group, idx);
      var home := if group < |lines| then lines[group] else NEVER;
      SplitMore(last, lines, first, idx, short, long);
      if last[idx] <= home {
        short := B.Insert(short, idx);
      } else {
        long := long + [(last[idx], idx)];
      }
    }
    SortPairsSorts(long);
    long := SortPairs(long);
  }

  lemma SplitMore(last: seq<nat>, lines: seq<nat>, first: seq<nat>, idx: nat, short: seq<nat>, long: seq<(nat, nat)>)
    requires |lines| == |first| && idx < |last| && SplitOk(last, lines, first, idx, short, long)
    ensures if last[idx] <= HomeFrom(lines, first, 0, idx) then
            SplitOk(last, lines, first, idx + 1, B.Insert(short, idx), long)
            else SplitOk(last, lines, first, idx + 1, short, long + [(last[idx], idx)]) && (last[idx], idx) !in long
  {
    hide B.Test, B.Insert, HomeFrom;
    forall i: nat ensures B.Test(B.Insert(short, idx), i) <==> i == idx || B.Test(short, i) {
      B.InsertTest(short, idx, i);
    }
  }

  // ------------------------------------------------------------- the releaser

  class Lifetimes {
    const short: seq<nat>
    const long: seq<(nat, nat)>
    const referencedNames: seq<nat>
    const lines: nat
    const nodes: nat
    var nextLong: nat
    var groupFirst: nat
    /** The last mention and the home line of every index. */
    ghost const last: seq<nat>
    ghost const home: seq<nat>
    /** The names some expression of the export mentions. */
    ghost const mentioned: set<nat>
    /** Everything released so far, in order. */
    ghost var log: seq<nat>

    constructor (short: seq<nat>, long: seq<(nat, nat)>, names: seq<nat>, lines: nat, nodes: nat,
                 ghost last: seq<nat>, ghost home: seq<nat>, ghost mentioned: set<nat>)
      requires Tables(short, long, last, home) && nodes == |last|
               && forall n: nat :: B.Test(names, n) <==> n in mentioned
      ensures Valid() && nextLong == 0 && groupFirst == 0 && log == []
      ensures this.last == last && this.home == home && this.mentioned == mentioned && this.lines == lines
    {
      this.short, this.long, this.referencedNames, this.lines, this.nodes := short, long, names, lines, nodes;
      this.last, this.home, this.mentioned := last, home, mentioned;
      nextLong, groupFirst, log := 0, 0, [];
    }

    ghost predicate Valid()
      reads this
    {
      Tables(short, long, last, home) && nodes == |last| && nextLong <= |long|
      && Logged(log, short, long, groupFirst, nextLong)
      && forall n: nat :: B.Test(referencedNames, n) <==> n in mentioned
    }

    lemma Consistent()
      requires Valid()
      ensures Tables(short, long, last, home) && nodes == |last| == |home| && nextLong <= |long|
    {}

    /** Whether any expression of the export is the constant `name`. */
    method NameReferenced(name: nat) returns (r: bool)
      requires Valid()
      ensures r <==> name in mentioned
    {
      r := B.Test(referencedNames, name);
    }

    /** Empties every slot that expires at or before this line. */
    method ReleaseAfterDecl(line: nat, exprs: Table) returns (after: Table, ghost released: seq<nat>)
      requires Valid() && groupFirst <= |exprs|
               && forall i :: 0 <= i < nodes && home[i] < last[i] <= line ==> i < |exprs|
      modifies this`nextLong, this`groupFirst, this`log
      ensures Valid() && groupFirst == |exprs| && log == old(log) + released
      ensures PassedTo(long, old(nextLong), nextLong, line)
      ensures Emptied(exprs, after, released)
      ensures forall i: nat :: i in released <==>
                (old(groupFirst) <= i < |exprs| && B.Test(short, i)) || ListedBetween(long, old(nextLong), nextLong, i)
    {
      hide Tables, Logged, B.Test, ListedBetween, PassedTo, Emptied;
      var mid;
      ghost var bulk, listed;
      mid, bulk := ReleaseBulk(exprs);
      groupFirst := |exprs|;
      assert |mid| == |exprs| by { SizesKept(exprs, mid, bulk); }
      after, listed := ReleaseListed(line, mid);
      released := bulk + listed;
      EmptiedTwice(exprs, mid, after, bulk, listed);
    }

    /** The nodes of the group just closed that die with it. */
    method ReleaseBulk(exprs: Table) returns (after: Table, ghost released: seq<nat>)
      requires Valid() && groupFirst <= |exprs|
      modifies this`log
      ensures log == old(log) + released && Tables(short, long, last, home)
              && Logged(log, short, long, |exprs|, nextLong)
      ensures Emptied(exprs, after, released)
      ensures forall i: nat :: i in released <==> groupFirst <= i < |exprs| && B.Test(short, i)
    {
      hide Tables, Logged, B.Test, Emptied;
      after, released := exprs, [];
      EmptiedNone(exprs);
      var idx := groupFirst;
      var stop := if |exprs| < nodes then |exprs| else nodes;
      while idx < stop
        invariant groupFirst <= idx <= |exprs| && (idx <= stop || idx == groupFirst)
        invariant Tables(short, long, last, home) && Logged(log, short, long, idx, nextLong)
                  && log == old(log) + released
        invariant Emptied(exprs, after, released)
        invariant forall i: nat :: i in released <==> groupFirst <= i < idx && B.Test(short, i)
      {
        LogShort(log, short, long, last, home, idx, nextLong);
        if B.Test(short, idx) {
          EmptiedMore(exprs, after, released, idx);
          after := after[idx := None];
          log := log + [idx];
          released := released + [idx];
        }
        idx := idx + 1;
      }
      ShortBelow(short, long, last, home);
      LoggedPast(log, short, long, last, home, idx, |exprs|, nextLong);
    }

    /** The nodes whose own last line is this one or earlier. */
    method ReleaseListed(line: nat, exprs: Table) returns (after: Table, ghost released: seq<nat>)
      requires Valid() && forall i :: 0 <= i < nodes && home[i] < last[i] <= line ==> i < |exprs|
      modifies this`nextLong, this`log
      ensures Valid() && log == old(log) + released
      ensures PassedTo(long, old(nextLong), nextLong, line)
      ensures Emptied(exprs, after, released)
      ensures forall i: nat :: i in released <==> ListedBetween(long, old(nextLong), nextLong, i)
    {
      hide Tables, Logged, B.Test, Emptied, ListedBetween;
      after, released := exprs, [];
      EmptiedNone(exprs);
      NoneListed(long, nextLong);
      while nextLong < |long| && long[nextLong].0 <= line
        invariant Valid() && log == old(log) + released
        invariant old(nextLong) <= nextLong && forall k :: old(nextLong) <= k < nextLong ==> long[k].0 <= line
        invariant Emptied(exprs, after, released)
        invariant forall i: nat :: i in released <==> ListedBetween(long, old(nextLong), nextLong, i)
        decreases |long| - nextLong
      {
        var idx := long[nextLong].1;
        LogLong(log, short, long, last, home, groupFirst, nextLong);
        OneListed(long, old(nextLong), nextLong);
        EmptiedMore(exprs, after, released, idx);
        after := after[idx := None];
        log := log + [idx];
        ghost var more := released + [idx];
        forall i: nat ensures i in more <==> ListedBetween(long, old(nextLong), nextLong + 1, i) {
          assert i in more <==> i in released || i == idx;
        }
        released := more;
        nextLong := nextLong + 1;
      }
    }
  }

  ghost predicate Emptied(before: Table, after: Table, released: seq<nat>) {
    |after| == |before|
    && (forall i :: i in released ==> i < |before|)
    && forall i :: 0 <= i < |before| ==> after[i] == if i in released then None else before[i]
  }

  lemma SizesKept(before: Table, after: Table, released: seq<nat>)
    requires Emptied(before, after, released)
    ensures |after| == |before|
  {}

  lemma EmptiedNone(exprs: Table)
    ensures Emptied(exprs, exprs, [])
  {}

  lemma EmptiedMore(before: Table, after: Table, released: seq<nat>, idx: nat)
    requires Emptied(before, after, released) && idx < |before|
    ensures |after| == |before| && Emptied(before, after[idx := None], released + [idx])
  {}

  lemma EmptiedTwice(before: Table, mid: Table, after: Table, a: seq<nat>, b: seq<nat>)
    requires Emptied(before, mid, a) && Emptied(mid, after, b)
    ensures Emptied(before, after, a + b)
  {}

  /** The list cursor stopped at the first entry past `line`. */
  ghost predicate PassedTo(long: seq<(nat, nat)>, from: nat, to: nat, line: nat) {
    from <= to <= |long| && (forall k :: from <= k < to ==> long[k].0 <= line) && (to < |long| ==> long[to].0 > line)
  }

  ghost predicate ListedBetween(long: seq<(nat, nat)>, from: nat, to: nat, i: nat)
    requires to <= |long|
  {
    exists k :: from <= k < to && long[k].1 == i
  }

  lemma NoneListed(long: seq<(nat, nat)>, at: nat)
    requires at <= |long|
    ensures forall i: nat :: !ListedBetween(long, at, at, i)
  {}

  lemma OneListed(long: seq<(nat, nat)>, from: nat, at: nat)
    requires from <= at < |long|
    ensures forall i: nat :: ListedBetween(long, from, at + 1, i) <==>
              ListedBetween(long, from, at, i) || i == long[at].1
  {
    forall i: nat ensures ListedBetween(long, from, at + 1, i) <==> ListedBetween(long, from, at, i) || i == long[at].1
    {
      if ListedBetween(long, from, at + 1, i) {
        var k :| from <= k < at + 1 && long[k].1 == i;
        assert k < at || i == long[at].1;
      }
      if ListedBetween(long, from, at, i) {
        var k :| from <= k < at && long[k].1 == i;
        assert from <= k < at + 1;
      }
    }
  }

  /** The bulk bits and the sorted list say what the last mentions and the homes say. */
  ghost predicate Tables(short: seq<nat>, long: seq<(nat, nat)>, last: seq<nat>, home: seq<nat>) {
    |home| == |last| && Sorted(long)
    && (forall i: nat :: B.Test(short, i) <==> i < |last| && last[i] <= home[i])
    && forall p: (nat, nat) :: p in long <==> p.1 < |last| && p.0 == last[p.1] && p.0 > home[p.1]
  }

  /** Nothing was released twice, and only what the cursors have passed. */
  ghost predicate Logged(log: seq<nat>, short: seq<nat>, long: seq<(nat, nat)>, passed: nat, next: nat)
    requires next <= |long|
  {
    (forall i, j :: 0 <= i < j < |log| ==> log[i] != log[j])
    && forall i :: i in log ==> (B.Test(short, i) && i < passed) || exists k :: 0 <= k < next && long[k].1 == i
  }

  lemma LogShort(log: seq<nat>, short: seq<nat>, long: seq<(nat, nat)>, last: seq<nat>, home: seq<nat>, idx: nat,
                 next: nat)
    requires Tables(short, long, last, home) && next <= |long| && Logged(log, short, long, idx, next) && idx < |last|
    ensures B.Test(short, idx) <==> last[idx] <= home[idx]
    ensures Logged(log, short, long, idx + 1, next)
    ensures B.Test(short, idx) ==> idx !in log && Logged(log + [idx], short, long, idx + 1, next)
  {
    hide B.Test, Sorted;
  }

  lemma ShortBelow(short: seq<nat>, long: seq<(nat, nat)>, last: seq<nat>, home: seq<nat>)
    requires Tables(short, long, last, home)
    ensures forall i: nat :: B.Test(short, i) ==> i < |last|
  {}

  lemma LoggedPast(log: seq<nat>, short: seq<nat>, long: seq<(nat, nat)>, last: seq<nat>, home: seq<nat>, idx: nat,
                   past: nat, next: nat)
    requires Tables(short, long, last, home) && next <= |long| && Logged(log, short, long, idx, next) && idx <= past
    ensures Logged(log, short, long, past, next)
  {
    hide B.Test, Tables;
  }

  lemma LogLong(log: seq<nat>, short: seq<nat>, long: seq<(nat, nat)>, last: seq<nat>, home: seq<nat>, passed: nat,
                next: nat)
    requires Tables(short, long, last, home) && next < |long| && Logged(log, short, long, passed, next)
    ensures var idx := long[next].1;
            idx < |last| && last[idx] == long[next].0 && home[idx] < last[idx]
            && Logged(log + [idx], short, long, passed, next + 1)
  {
    hide B.Test;
    var idx := long[next].1;
    assert long[next] in long;
    assert idx !in log;
    assert 0 <= next < next + 1 && long[next].1 == idx;
  }

  lemma FirstGrows<E>(records: seq<Record<E>>)
    ensures var first := DeclFirst(records, |records|);
            |DeclLines(records, |records|)| == |first| && forall g, h :: 0 <= g < h < |first| ==> first[g] <= first[h]
  {
    var lines, first := DeclLines(records, |records|), DeclFirst(records, |records|);
    DeclFacts(records, |records|);
    forall g, h | 0 <= g < h < |first| ensures first[g] <= first[h] {
      LastRefsForward(records, lines[g] - 1, lines[h] - 1);
    }
  }

  ghost function Homes<E>(records: seq<Record<E>>, nodes: nat): (r: seq<nat>)
    ensures |r| == nodes && forall i :: 0 <= i < nodes ==> r[i] == Home(records, i)
  {
    seq(nodes, i requires 0 <= i < nodes => Home(records, i))
  }

  ghost function MentionedNames<E>(records: seq<Record<E>>): set<nat> {
    set k, n | 0 <= k < |records| && records[k].Define? && n in records[k].names :: n
  }

  lemma MentionedAre<E>(records: seq<Record<E>>)
    ensures forall n: nat :: n in MentionedNames(records) <==> Referenced(records, |records|, n)
  {}

  /** The first pass over the export. */
  method Scan<E>(records: seq<Record<E>>) returns (lt: Lifetimes)
    ensures fresh(lt) && lt.Valid() && lt.nextLong == 0 && lt.groupFirst == 0 && lt.log == []
    ensures lt.last == LastRefs(records, |records|) && lt.home == Homes(records, |lt.last|)
    ensures lt.lines == |records| && forall n: nat :: n in lt.mentioned <==> Referenced(records, |records|, n)
  {
    hide B.Test, B.Fit, Referenced, Sorted, LastRefs, DeclLines, DeclFirst, HomeFrom;
    var last, lines, first, words := ReadLines(records);
    FirstGrows(records);
    var short, long := Split(last, lines, first);
    MentionedAre(records);
    lt := new Lifetimes(short, long, words, |records|, |last|, last, Homes(records, |last|), MentionedNames(records));
  }
}
