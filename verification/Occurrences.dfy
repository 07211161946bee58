/**
 Which loose indices a term mentions: the one-word summary every node carries, and the
 sorted list computed when the summary overflows.
 */
module Occurrences {
  import opened Terms
  import opened Words
  import opened Positions

  const USED_OVERFLOW: nat := WORD_MAX
  const USED_SET_CAP: nat := 64

  // ------------------------------------------------------- one-word summary

  function UsedOr(a: nat, b: nat): nat {
    if a == USED_OVERFLOW || b == USED_OVERFLOW then USED_OVERFLOW else Or(a, b)
  }

  function UsedUnderBinder(u: nat): nat { if u == USED_OVERFLOW then USED_OVERFLOW else u / 2 }

  function Used(e: Term): nat {
    match e
    case BVar(i) => if i >= 64 then USED_OVERFLOW else Pow2(i)
    case Sort(_) => 0
    case Const(_, _) => 0
    case Lit(_) => 0
    case App(f, x) => UsedOr(Used(f), Used(x))
    case Lam(_, ty, body) => UsedOr(Used(ty), UsedUnderBinder(Used(body)))
    case Pi(_, ty, body) => UsedOr(Used(ty), UsedUnderBinder(Used(body)))
    case Let(ty, val, body) => UsedOr(UsedOr(Used(ty), Used(val)), UsedUnderBinder(Used(body)))
    case Proj(_, _, v) => Used(v)
  }

  lemma {:induction false} UsedIsWord(e: Term)
    ensures Used(e) <= WORD_MAX
  {
    WordSize();
    match e
    case BVar(i) => if i < 64 { Pow2Mono(i + 1, 64); }
    case App(f, x) => UsedIsWord(f); UsedIsWord(x); OrIsWord(Used(f), Used(x));
    case Lam(_, ty, body) => UsedIsWord(ty); UsedIsWord(body); OrIsWord(Used(ty), UsedUnderBinder(Used(body)));
    case Pi(_, ty, body) => UsedIsWord(ty); UsedIsWord(body); OrIsWord(Used(ty), UsedUnderBinder(Used(body)));
    case Let(ty, val, body) =>
      UsedIsWord(ty);
      UsedIsWord(val);
      UsedIsWord(body);
      OrIsWord(Used(ty), Used(val));
      OrIsWord(UsedOr(Used(ty), Used(val)), UsedUnderBinder(Used(body)));
    case Proj(_, _, v) => UsedIsWord(v);
    case _ =>
  }

  lemma OrIsWord(a: nat, b: nat)
    requires a <= WORD_MAX && b <= WORD_MAX
    ensures UsedOr(a, b) <= WORD_MAX
  {
    WordSize();
    OrBound(a, b, 64);
  }

  /** A summary that did not overflow has exactly the loose indices as its bits. */
  lemma {:induction false} SummaryExact(e: Term, i: nat)
    requires Used(e) != USED_OVERFLOW
    ensures Bit(Used(e), i) <==> Occurs(e, i)
  {
    match e
    case BVar(j) => BitPow2(j, i);
    case Sort(_) => BitOfZero(i);
    case Const(_, _) => BitOfZero(i);
    case Lit(_) => BitOfZero(i);
    case App(f, x) => SummaryExact(f, i); SummaryExact(x, i); BitOr(Used(f), Used(x), i);
    case Lam(_, ty, body) => SummaryExact(ty, i); SummaryExact(body, i + 1); BitOr(Used(ty), Used(body) / 2, i);
    case Pi(_, ty, body) => SummaryExact(ty, i); SummaryExact(body, i + 1); BitOr(Used(ty), Used(body) / 2, i);
    case Let(ty, val, body) =>
      SummaryExact(ty, i);
      SummaryExact(val, i);
      SummaryExact(body, i + 1);
      BitOr(Used(ty), Used(val), i);
      BitOr(UsedOr(Used(ty), Used(val)), Used(body) / 2, i);
    case Proj(_, _, v) => SummaryExact(v, i);
  }

  // ------------------------------------------------------------ sorted lists

  predicate Increasing(s: seq<nat>) { forall p, q :: 0 <= p < q < |s| ==> s[p] < s[q] }

  function BitsList(w: nat, base: nat): seq<nat> {
    if w == 0 then []
    else
      ClearLowest(w, 0);
      [TrailingZeros(w) + base] + BitsList(And(w, w - 1), base)
  }

  lemma {:induction false} BitsListExact(w: nat, base: nat)
    ensures Increasing(BitsList(w, base))
    ensures forall i :: i in BitsList(w, base) ==> i >= base
    ensures forall i: nat :: Bit(w, i) <==> i + base in BitsList(w, base)
    decreases w
  {
    if w == 0 {
      forall i: nat ensures !Bit(w, i) { BitOfZero(i); }
    } else {
      ClearLowest(w, 0);
      var rest := And(w, w - 1);
      BitsListExact(rest, base);
      forall i: nat
        ensures Bit(rest, i) <==> Bit(w, i) && i != TrailingZeros(w)
        ensures Bit(w, i) ==> i >= TrailingZeros(w)
      { ClearLowest(w, i); }
      assert Bit(w, TrailingZeros(w)) by { SomeBit(w); }
      var l, tail := BitsList(w, base), BitsList(rest, base);
      assert l == [TrailingZeros(w) + base] + tail;
      forall q | 0 < q < |l| ensures l[0] < l[q] {
        assert l[q] == tail[q - 1] && tail[q - 1] in tail;
        assert Bit(rest, l[q] - base);
      }
    }
  }

  /** The loop that strips the lowest bit until the word is empty. */
  method BitsToList(w: nat, base: nat) returns (out: seq<nat>)
    ensures out == BitsList(w, base)
    ensures Increasing(out)
    ensures forall i: nat :: Bit(w, i) <==> i + base in out
  {
    BitsListExact(w, base);
    hide Bit, BitsList, And, TrailingZeros, Increasing;
    out := [];
    var bits := w;
    while bits != 0
      invariant out + BitsList(bits, base) == BitsList(w, base)
      decreases bits
    {
      BitsListStep(bits, base);
      ghost var before := out;
      out := out + [TrailingZeros(bits) + base];
      bits := And(bits, bits - 1);
      assert before + ([out[|before|]] + BitsList(bits, base)) == out + BitsList(bits, base);
    }
    BitsListEmpty(base);
    assert out + [] == out;
  }

  lemma BitsListStep(w: nat, base: nat)
    requires w > 0
    ensures And(w, w - 1) < w && BitsList(w, base) == [TrailingZeros(w) + base] + BitsList(And(w, w - 1), base)
  {
    ClearLowest(w, 0);
  }

  lemma BitsListEmpty(base: nat)
    ensures BitsList(0, base) == []
  {}

  function Union(a: seq<nat>, b: seq<nat>): seq<nat>
    decreases |a| + |b|
  {
    if a == [] then b
    else if b == [] then a
    else if a[0] < b[0] then [a[0]] + Union(a[1..], b)
    else if a[0] > b[0] then [b[0]] + Union(a, b[1..])
    else [a[0]] + Union(a[1..], b[1..])
  }

  lemma {:induction false} UnionExact(a: seq<nat>, b: seq<nat>)
    requires Increasing(a) && Increasing(b)
    ensures Increasing(Union(a, b))
    ensures forall i :: i in Union(a, b) <==> i in a || i in b
    ensures |Union(a, b)| >= |a| && |Union(a, b)| >= |b|
    decreases |a| + |b|
  {
    if a != [] && b != [] {
      var a', b' := if a[0] <= b[0] then a[1..] else a, if b[0] <= a[0] then b[1..] else b;
      var head := if a[0] <= b[0] then a[0] else b[0];
      HeadBelow(a);
      HeadBelow(b);
      assert a == [a[0]] + a[1..] && b == [b[0]] + b[1..];
      hide Increasing;
      UnionExact(a', b');
      ConsIncreasing(head, Union(a', b'));
    }
  }

  lemma UnionStep(a: seq<nat>, b: seq<nat>, i: nat, j: nat)
    requires i <= |a| && j <= |b| && (i < |a| || j < |b|)
    ensures Union(a[i..], b[j..]) ==
            if i < |a| && (j == |b| || a[i] < b[j]) then [a[i]] + Union(a[i + 1..], b[j..])
            else if j < |b| && (i == |a| || a[i] > b[j]) then [b[j]] + Union(a[i..], b[j + 1..])
            else [a[i]] + Union(a[i + 1..], b[j + 1..])
  {
    if i < |a| { assert a[i..] == [a[i]] + a[i + 1..]; }
    if j < |b| { assert b[j..] == [b[j]] + b[j + 1..]; }
  }

  /** The union of two increasing lists, or nothing once it passes the cap. */
  function Merged(acc: seq<nat>, other: seq<nat>): Option<seq<nat>> {
    if other == [] then Some(acc)
    else if |Union(acc, other)| > USED_SET_CAP then None
    else Some(Union(acc, other))
  }

  lemma UnionEmpty()
    ensures Union([], []) == []
  {}

  /** The smaller head, dropped from both lists if they share it. */
  method NextOf(acc: seq<nat>, other: seq<nat>, i: nat, j: nat) returns (next: nat, i': nat, j': nat)
    requires i <= |acc| && j <= |other| && (i < |acc| || j < |other|)
    ensures i <= i' <= |acc| && j <= j' <= |other| && i + j < i' + j'
    ensures Union(acc[i..], other[j..]) == [next] + Union(acc[i'..], other[j'..])
  {
    UnionStep(acc, other, i, j);
    hide Union;
    if i < |acc| && (j == |other| || acc[i] < other[j]) { return acc[i], i + 1, j; }
    if j < |other| && (i == |acc| || acc[i] > other[j]) { return other[j], i, j + 1; }
    return acc[i], i + 1, j + 1;
  }

  method MergeUsed(acc: seq<nat>, other: seq<nat>) returns (r: Option<seq<nat>>)
    ensures r == Merged(acc, other)
  {
    if other == [] { return Some(acc); }
    var merged: seq<nat> := [];
    var i, j := 0, 0;
    UnionEmpty();
    hide Union;
    while i < |acc| || j < |other|
      invariant i <= |acc| && j <= |other| && |merged| <= USED_SET_CAP
      invariant merged + Union(acc[i..], other[j..]) == Union(acc, other)
      decreases |acc| - i + |other| - j
    {
      var next;
      ghost var before := merged;
      next, i, j := NextOf(acc, other, i, j);
      merged := merged + [next];
      assert before + ([next] + Union(acc[i..], other[j..])) == merged + Union(acc[i..], other[j..]);
      if |merged| > USED_SET_CAP { return None; }
    }
    assert merged + [] == merged;
    r := Some(merged);
  }

  function DropBelow(s: seq<nat>, drop: nat): seq<nat> {
    if s == [] then []
    else if s[0] >= drop then [s[0] - drop] + DropBelow(s[1..], drop)
    else DropBelow(s[1..], drop)
  }

  lemma {:induction false} DropBelowExact(s: seq<nat>, drop: nat)
    requires Increasing(s)
    ensures Increasing(DropBelow(s, drop)) && |DropBelow(s, drop)| <= |s|
    ensures forall i: nat :: i in DropBelow(s, drop) <==> i + drop in s
  {
    if s != [] {
      DropBelowExact(s[1..], drop);
      var tail := DropBelow(s[1..], drop);
      assert s == [s[0]] + s[1..];
      HeadBelow(s);
      hide Increasing;
      if s[0] >= drop {
        forall i | i in tail ensures s[0] - drop < i { assert i + drop in s[1..]; }
        ConsIncreasing(s[0] - drop, tail);
      }
    }
  }

  lemma HeadBelow(s: seq<nat>)
    requires Increasing(s) && s != []
    ensures Increasing(s[1..]) && forall i :: i in s[1..] ==> s[0] < i
  {}

  lemma ConsIncreasing(h: nat, tail: seq<nat>)
    requires Increasing(tail) && forall i :: i in tail ==> h < i
    ensures Increasing([h] + tail)
  {
    var s := [h] + tail;
    forall p, q | 0 <= p < q < |s| ensures s[p] < s[q] { assert s[q] == tail[q - 1] && tail[q - 1] in tail; }
  }

  // --------------------------------------------------------- the loose list

  function ChildUsed(c: Term, drop: nat): Option<seq<nat>>
    requires drop <= 1
    decreases c, 1
  {
    if Loose(c) <= drop then Some([])
    else if Used(c) != USED_OVERFLOW then Some(BitsList(if drop == 0 then Used(c) else Used(c) / 2, 0))
    else
      var s := UsedSet(c);
      if s.None? then None else Some(DropBelow(s.value, drop))
  }

  function Then(acc: Option<seq<nat>>, other: Option<seq<nat>>): Option<seq<nat>> {
    if acc.None? || other.None? then None else Merged(acc.value, other.value)
  }

  /** The list a term answers with: one word unpacked, or the union of its children's lists. */
  function UsedSet(e: Term): Option<seq<nat>>
    decreases e, 0
  {
    if Used(e) != USED_OVERFLOW then Some(BitsList(Used(e), 0))
    else
      match e
      case BVar(i) => Some([i])
      case Sort(_) => Some([])
      case Const(_, _) => Some([])
      case Lit(_) => Some([])
      case App(f, x) => Then(Then(Some([]), ChildUsed(f, 0)), ChildUsed(x, 0))
      case Lam(_, ty, body) => Then(Then(Some([]), ChildUsed(ty, 0)), ChildUsed(body, 1))
      case Pi(_, ty, body) => Then(Then(Some([]), ChildUsed(ty, 0)), ChildUsed(body, 1))
      case Let(ty, val, body) => Then(Then(Then(Some([]), ChildUsed(ty, 0)), ChildUsed(val, 0)), ChildUsed(body, 1))
      case Proj(_, _, v) => Then(Some([]), ChildUsed(v, 0))
  }

  /** The loose indices of `e` from `drop` up, counted from `drop`. */
  ghost predicate Lists(s: seq<nat>, e: Term, drop: nat) {
    Increasing(s) && |s| <= 64 && forall i: nat :: i in s <==> Occurs(e, i + drop)
  }

  lemma {:induction false} IncreasingBelow(s: seq<nat>, n: nat)
    requires Increasing(s) && forall i :: i in s ==> i < n
    ensures |s| <= n
    decreases n
  {
    if s != [] {
      var init := s[..|s| - 1];
      assert s[|s| - 1] in s;
      forall i | i in init ensures i < n - 1 {
        var p :| 0 <= p < |init| && init[p] == i;
        assert s[p] < s[|s| - 1];
      }
      IncreasingBelow(init, n - 1);
    }
  }

  lemma WordLists(e: Term, w: nat, drop: nat)
    requires w <= WORD_MAX && forall i: nat :: Bit(w, i) <==> Occurs(e, i + drop)
    ensures Lists(BitsList(w, 0), e, drop)
  {
    BitsListExact(w, 0);
    WordSize();
    forall i | i in BitsList(w, 0) ensures i < 64 {
      assert Bit(w, i);
      BitBound(w, 64, i);
    }
    forall i: nat ensures i in BitsList(w, 0) <==> Bit(w, i) { assert Bit(w, i) <==> i + 0 in BitsList(w, 0); }
    IncreasingBelow(BitsList(w, 0), 64);
  }

  lemma ChildUsedExact(c: Term, drop: nat)
    requires drop <= 1 && ChildUsed(c, drop).Some?
    requires UsedSet(c).Some? ==> Lists(UsedSet(c).value, c, 0)
    ensures Lists(ChildUsed(c, drop).value, c, drop)
  {
    if Loose(c) <= drop {
      forall j: nat | Occurs(c, j) ensures j < drop { OccursBelowLoose(c, j); }
    } else if Used(c) != USED_OVERFLOW {
      UsedIsWord(c);
      var w := if drop == 0 then Used(c) else Used(c) / 2;
      forall i: nat ensures Bit(w, i) <==> Occurs(c, i + drop) { SummaryExact(c, i + drop); }
      WordLists(c, w, drop);
    } else {
      DropBelowExact(UsedSet(c).value, drop);
    }
  }

  lemma MergedExact(acc: seq<nat>, other: seq<nat>)
    requires Increasing(acc) && Increasing(other) && |acc| <= USED_SET_CAP && Merged(acc, other).Some?
    ensures var u := Merged(acc, other).value;
            Increasing(u) && |u| <= USED_SET_CAP && forall i :: i in u <==> i in acc || i in other
  {
    UnionExact(acc, other);
  }

  /** Whenever a list is given it is increasing, has at most 64 entries, and is the set of loose indices. */
  lemma {:induction false} UsedSetExact(e: Term)
    requires UsedSet(e).Some?
    ensures Lists(UsedSet(e).value, e, 0)
    decreases e, 0
  {
    hide Bit, BitsList, Merged, ChildUsed, Loose;
    if Used(e) != USED_OVERFLOW {
      UsedIsWord(e);
      forall i: nat ensures Bit(Used(e), i) <==> Occurs(e, i + 0) { SummaryExact(e, i); }
      WordLists(e, Used(e), 0);
    } else {
      match e
      case App(f, x) => ChildrenExact(f, 0); ChildrenExact(x, 0); PairExact(e, f, 0, x, 0);
      case Lam(_, ty, body) => ChildrenExact(ty, 0); ChildrenExact(body, 1); PairExact(e, ty, 0, body, 1);
      case Pi(_, ty, body) => ChildrenExact(ty, 0); ChildrenExact(body, 1); PairExact(e, ty, 0, body, 1);
      case Let(ty, val, body) =>
        ChildrenExact(ty, 0);
        ChildrenExact(val, 0);
        ChildrenExact(body, 1);
        TripleExact(e, ty, val, body);
      case Proj(_, _, v) => ChildrenExact(v, 0); MergedExact([], ChildUsed(v, 0).value);
      case _ =>
    }
  }

  lemma {:induction false} ChildrenExact(c: Term, drop: nat)
    requires drop <= 1
    ensures ChildUsed(c, drop).Some? ==> Lists(ChildUsed(c, drop).value, c, drop)
    decreases c, 1
  {
    if ChildUsed(c, drop).Some? {
      if UsedSet(c).Some? { UsedSetExact(c); }
      ChildUsedExact(c, drop);
    }
  }

  lemma PairExact(e: Term, a: Term, da: nat, b: Term, db: nat)
    requires da <= 1 && db <= 1
    requires ChildUsed(a, da).Some? && ChildUsed(b, db).Some?
    requires Lists(ChildUsed(a, da).value, a, da) && Lists(ChildUsed(b, db).value, b, db)
    requires forall i: nat :: Occurs(e, i) <==> Occurs(a, i + da) || Occurs(b, i + db)
    requires UsedSet(e) == Then(Then(Some([]), ChildUsed(a, da)), ChildUsed(b, db)) && UsedSet(e).Some?
    ensures Lists(UsedSet(e).value, e, 0)
  {
    var x, y := ChildUsed(a, da).value, ChildUsed(b, db).value;
    MergedExact([], x);
    MergedExact(Merged([], x).value, y);
  }

  lemma NilIncreasing()
    ensures Increasing([])
  {}

  lemma TripleExact(e: Term, ty: Term, val: Term, body: Term)
    requires ChildUsed(ty, 0).Some? && ChildUsed(val, 0).Some? && ChildUsed(body, 1).Some?
    requires Lists(ChildUsed(ty, 0).value, ty, 0) && Lists(ChildUsed(val, 0).value, val, 0)
             && Lists(ChildUsed(body, 1).value, body, 1)
    requires forall i: nat :: Occurs(e, i) <==> Occurs(ty, i) || Occurs(val, i) || Occurs(body, i + 1)
    requires UsedSet(e) == Then(Then(Then(Some([]), ChildUsed(ty, 0)), ChildUsed(val, 0)), ChildUsed(body, 1))
             && UsedSet(e).Some?
    ensures Lists(UsedSet(e).value, e, 0)
  {
    hide UsedSet, ChildUsed, Merged, Occurs, Loose, Used, Increasing;
    var x, y, z := ChildUsed(ty, 0).value, ChildUsed(val, 0).value, ChildUsed(body, 1).value;
    assert Increasing([]) by { NilIncreasing(); }
    MergedExact([], x);
    var m := Merged([], x).value;
    MergedExact(m, y);
    var n := Merged(m, y).value;
    MergedExact(n, z);
    var u := Merged(n, z).value;
    forall i: nat ensures i in u <==> Occurs(e, i + 0) {
      assert i in x <==> Occurs(ty, i + 0);
      assert i in y <==> Occurs(val, i + 0);
      assert i in z <==> Occurs(body, i + 1);
    }
  }

  // ------------------------------------------------ exactly when there is none

  ghost function LooseSet(e: Term): set<nat> { set i: nat | i < Loose(e) && Occurs(e, i) }

  /** `e` itself, or a part of it seen through to a loose variable, mentions more binders than the cap. */
  ghost predicate Dense(e: Term) {
    Used(e) == USED_OVERFLOW
    && (|LooseSet(e)| > 64
        || match e
           case App(f, x) => (Loose(f) > 0 && Dense(f)) || (Loose(x) > 0 && Dense(x))
           case Lam(_, ty, body) => (Loose(ty) > 0 && Dense(ty)) || (Loose(body) > 1 && Dense(body))
           case Pi(_, ty, body) => (Loose(ty) > 0 && Dense(ty)) || (Loose(body) > 1 && Dense(body))
           case Let(ty, val, body) =>
             (Loose(ty) > 0 && Dense(ty)) || (Loose(val) > 0 && Dense(val)) || (Loose(body) > 1 && Dense(body))
           case Proj(_, _, v) => Loose(v) > 0 && Dense(v)
           case _ => false)
  }

  lemma {:induction false} IncreasingSize(s: seq<nat>, t: set<nat>)
    requires Increasing(s) && forall i :: i in s <==> i in t
    ensures |s| == |t|
    decreases |s|
  {
    if s == [] {
      assert t == {};
    } else {
      var last := s[|s| - 1];
      assert last in s;
      var init := s[..|s| - 1];
      assert s == init + [last];
      assert last !in init;
      IncreasingSize(init, t - {last});
    }
  }

  lemma ListSize(s: seq<nat>, e: Term)
    requires Increasing(s) && forall i: nat :: i in s <==> Occurs(e, i)
    ensures |s| == |LooseSet(e)|
  {
    forall i ensures i in s <==> i in LooseSet(e) {
      if i in s { OccursBelowLoose(e, i); }
    }
    IncreasingSize(s, LooseSet(e));
  }

  lemma LeafSize(e: Term)
    requires e.BVar? || e.Sort? || e.Const? || e.Lit?
    ensures |LooseSet(e)| <= 1
  {
    ListSize(if e.BVar? then [e.i] else [], e);
  }

  /** No list is given exactly for dense terms. */
  lemma {:induction false} NoListExactly(e: Term)
    ensures UsedSet(e).None? <==> Dense(e)
  {
    hide Merged, Union, ChildUsed, LooseSet, Lists, Increasing, Then, Loose, BitsList;
    if Used(e) == USED_OVERFLOW {
      match e
      case BVar(_) => LeafSize(e);
      case Sort(_) => LeafSize(e);
      case Const(_, _) => LeafSize(e);
      case Lit(_) => LeafSize(e);
      case App(f, x) =>
        NoListExactly(f);
        NoListExactly(x);
        PairNone(e, f, 0, x, 0);
      case Lam(_, ty, body) =>
        NoListExactly(ty);
        NoListExactly(body);
        PairNone(e, ty, 0, body, 1);
      case Pi(_, ty, body) =>
        NoListExactly(ty);
        NoListExactly(body);
        PairNone(e, ty, 0, body, 1);
      case Let(ty, val, body) =>
        NoListExactly(ty);
        NoListExactly(val);
        NoListExactly(body);
        TripleNone(e, ty, val, body);
      case Proj(_, _, v) =>
        NoListExactly(v);
        SingleNone(e, v);
    } else if Dense(e) {
      assert false;
    }
  }

  lemma ChildNone(c: Term, drop: nat)
    requires drop <= 1
    requires UsedSet(c).None? <==> Dense(c)
    ensures ChildUsed(c, drop).None? <==> Loose(c) > drop && Dense(c)
    ensures ChildUsed(c, drop).Some? ==> Lists(ChildUsed(c, drop).value, c, drop)
  {
    ChildrenExact(c, drop);
  }

  lemma SingleNone(e: Term, v: Term)
    requires UsedSet(v).None? <==> Dense(v)
    requires forall i: nat :: Occurs(e, i) <==> Occurs(v, i)
    ensures Then(Some([]), ChildUsed(v, 0)).None? <==> |LooseSet(e)| > USED_SET_CAP || (Loose(v) > 0 && Dense(v))
  {
    hide UsedSet, ChildUsed, Dense, LooseSet;
    ChildNone(v, 0);
    if ChildUsed(v, 0).Some? {
      var x := ChildUsed(v, 0).value;
      forall i: nat ensures i in x <==> Occurs(e, i) { assert i in x <==> Occurs(v, i + 0); }
      ListSize(x, e);
    } else {
      assert Loose(v) > 0 && Dense(v);
    }
  }

  lemma PairNone(e: Term, a: Term, da: nat, b: Term, db: nat)
    requires da <= 1 && db <= 1
    requires (UsedSet(a).None? <==> Dense(a)) && (UsedSet(b).None? <==> Dense(b))
    requires forall i: nat :: Occurs(e, i) <==> Occurs(a, i + da) || Occurs(b, i + db)
    ensures Then(Then(Some([]), ChildUsed(a, da)), ChildUsed(b, db)).None?
       <==> |LooseSet(e)| > USED_SET_CAP || (Loose(a) > da && Dense(a)) || (Loose(b) > db && Dense(b))
  {
    hide UsedSet, ChildUsed, Dense, LooseSet, Union, Then, Occurs, Loose, Used, Increasing;
    ChildNone(a, da);
    ChildNone(b, db);
    if ChildUsed(a, da).Some? && ChildUsed(b, db).Some? {
      var x, y := ChildUsed(a, da).value, ChildUsed(b, db).value;
      ThenTwo(x, y);
      UnionExact(x, y);
      var u := Union(x, y);
      forall i: nat ensures i in u <==> Occurs(e, i) {
        assert i in x <==> Occurs(a, i + da);
        assert i in y <==> Occurs(b, i + db);
      }
      ListSize(u, e);
    } else {
      ThenNone(ChildUsed(a, da), ChildUsed(b, db), Some([]));
    }
  }

  lemma ThreeSize(e: Term, ty: Term, val: Term, body: Term, x: seq<nat>, y: seq<nat>, z: seq<nat>)
    requires forall i: nat :: Occurs(e, i) <==> Occurs(ty, i) || Occurs(val, i) || Occurs(body, i + 1)
    requires Lists(x, ty, 0) && Lists(y, val, 0) && Lists(z, body, 1)
    ensures Then(Then(Then(Some([]), Some(x)), Some(y)), Some(z)).None? <==> |LooseSet(e)| > USED_SET_CAP
  {
    hide Union, LooseSet, Loose, Then;
    ThenThree(x, y, z);
    UnionExact(x, y);
    var u := Union(x, y);
    UnionExact(u, z);
    var w := Union(u, z);
    forall i: nat ensures i in w <==> Occurs(e, i) {
      assert i in w <==> i in x || i in y || i in z;
      assert i in x <==> Occurs(ty, i + 0);
      assert i in y <==> Occurs(val, i + 0);
      assert i in z <==> Occurs(body, i + 1);
    }
    ListSize(w, e);
  }

  lemma TripleNone(e: Term, ty: Term, val: Term, body: Term)
    requires (UsedSet(ty).None? <==> Dense(ty)) && (UsedSet(val).None? <==> Dense(val))
             && (UsedSet(body).None? <==> Dense(body))
    requires forall i: nat {:trigger Occurs(e, i)} :: Occurs(e, i) <==>
               Occurs(ty, i) || Occurs(val, i) || Occurs(body, i + 1)
    ensures Then(Then(Then(Some([]), ChildUsed(ty, 0)), ChildUsed(val, 0)), ChildUsed(body, 1)).None?
            <==> |LooseSet(e)| > USED_SET_CAP || (Loose(ty) > 0 && Dense(ty)) || (Loose(val) > 0 && Dense(val))
                 || (Loose(body) > 1 && Dense(body))
  {
    hide UsedSet, ChildUsed, Dense, LooseSet, Union, Then, Occurs, Loose, Used, Lists;
    ChildNone(ty, 0);
    ChildNone(val, 0);
    ChildNone(body, 1);
    if ChildUsed(ty, 0).Some? && ChildUsed(val, 0).Some? && ChildUsed(body, 1).Some? {
      var x, y, z := ChildUsed(ty, 0).value, ChildUsed(val, 0).value, ChildUsed(body, 1).value;
      ThreeSize(e, ty, val, body, x, y, z);
    } else {
      ThenNone(ChildUsed(ty, 0), ChildUsed(val, 0), ChildUsed(body, 1));
    }
  }

  lemma ThenNone(a: Option<seq<nat>>, b: Option<seq<nat>>, c: Option<seq<nat>>)
    ensures a.None? || b.None? ==> Then(Then(Some([]), a), b).None?
    ensures a.None? || b.None? || c.None? ==> Then(Then(Then(Some([]), a), b), c).None?
  {}

  lemma ThenTwo(x: seq<nat>, y: seq<nat>)
    requires Increasing(x) && Increasing(y) && |x| <= USED_SET_CAP && |y| <= USED_SET_CAP
    ensures Then(Then(Some([]), Some(x)), Some(y)).None? <==> |Union(x, y)| > USED_SET_CAP
  {
    assert Union([], x) == x && Union(x, []) == x;
  }

  lemma ThenThree(x: seq<nat>, y: seq<nat>, z: seq<nat>)
    requires Increasing(x) && Increasing(y) && Increasing(z)
    requires |x| <= USED_SET_CAP && |y| <= USED_SET_CAP && |z| <= USED_SET_CAP
    ensures Then(Then(Then(Some([]), Some(x)), Some(y)), Some(z)).None? <==> |Union(Union(x, y), z)| > USED_SET_CAP
  {
    assert Union([], x) == x && Union(x, []) == x;
    var u := Union(x, y);
    UnionExact(x, y);
    UnionExact(u, z);
    assert Union(u, []) == u;
  }

  // ------------------------------------------- exactly when the word overflows

  /** A variable past the word, whether or not it is bound further up, or all 64 of the word loose at once. */
  ghost predicate Overflows(e: Term) {
    (e.BVar? && e.i >= 64) || forall i: nat :: i < 64 ==> Occurs(e, i)
  }

  ghost predicate OverflowsAt(e: Term, path: seq<nat>) {
    At(e, path).Some? && Overflows(At(e, path).value.0)
  }

  lemma UsedOrBits(a: nat, b: nat, i: nat)
    requires a <= WORD_MAX && b <= WORD_MAX && i < 64
    ensures Bit(UsedOr(a, b), i) <==> Bit(a, i) || Bit(b, i)
  {
    WordSize();
    AllBitsMax(WORD_MAX, 64);
    BitOr(a, b, i);
  }

  ghost predicate PartOverflows(e: Term) { exists k :: 0 <= k < |Parts(e)| && Used(Parts(e)[k].0) == USED_OVERFLOW }

  lemma PartsSummaries(e: Term)
    ensures PartOverflows(e) ==> Used(e) == USED_OVERFLOW
    ensures match e
            case App(f, x) => PartOverflows(e) <==> Used(f) == USED_OVERFLOW || Used(x) == USED_OVERFLOW
            case Lam(_, ty, body) => PartOverflows(e) <==> Used(ty) == USED_OVERFLOW || Used(body) == USED_OVERFLOW
            case Pi(_, ty, body) => PartOverflows(e) <==> Used(ty) == USED_OVERFLOW || Used(body) == USED_OVERFLOW
            case Let(ty, val, body) =>
              PartOverflows(e) <==>
                Used(ty) == USED_OVERFLOW || Used(val) == USED_OVERFLOW || Used(body) == USED_OVERFLOW
            case Proj(_, _, v) => PartOverflows(e) <==> Used(v) == USED_OVERFLOW
            case _ => !PartOverflows(e)
  {
    var ps := Parts(e);
    match e
    case App(f, x) => assert ps[0].0 == f && ps[1].0 == x;
    case Lam(_, ty, body) => assert ps[0].0 == ty && ps[1].0 == body;
    case Pi(_, ty, body) => assert ps[0].0 == ty && ps[1].0 == body;
    case Let(ty, val, body) => assert ps[0].0 == ty && ps[1].0 == val && ps[2].0 == body;
    case Proj(_, _, v) => assert ps[0].0 == v;
    case _ =>
  }

  /** While no part has overflowed, the word has the bits of the loose indices, full or not. */
  lemma BitsOfParts(e: Term, i: nat)
    requires !e.BVar? && !PartOverflows(e) && i < 64
    ensures Bit(Used(e), i) <==> Occurs(e, i)
  {
    PartsSummaries(e);
    hide PartOverflows, Bit, UsedOr;
    match e
    case App(f, x) => TwoBits(f, Used(f), 0, x, Used(x), 0, i);
    case Lam(_, ty, body) => TwoBits(ty, Used(ty), 0, body, Used(body) / 2, 1, i);
    case Pi(_, ty, body) => TwoBits(ty, Used(ty), 0, body, Used(body) / 2, 1, i);
    case Let(ty, val, body) =>
      TwoBits(ty, Used(ty), 0, val, Used(val), 0, i);
      UsedIsWord(ty);
      UsedIsWord(val);
      UsedIsWord(body);
      OrIsWord(Used(ty), Used(val));
      UsedOrBits(UsedOr(Used(ty), Used(val)), Used(body) / 2, i);
      HalfBit(body, i);
    case Proj(_, _, v) => SummaryExact(v, i);
    case _ => BitOfZero(i);
  }

  lemma HalfBit(c: Term, i: nat)
    requires Used(c) != USED_OVERFLOW
    ensures Bit(Used(c) / 2, i) <==> Occurs(c, i + 1)
  {
    SummaryExact(c, i + 1);
  }

  lemma TwoBits(a: Term, wa: nat, da: nat, b: Term, wb: nat, db: nat, i: nat)
    requires Used(a) != USED_OVERFLOW && Used(b) != USED_OVERFLOW && i < 64
    requires if da == 0 then wa == Used(a) else da == 1 && wa == Used(a) / 2
    requires if db == 0 then wb == Used(b) else db == 1 && wb == Used(b) / 2
    ensures Bit(UsedOr(wa, wb), i) <==> Occurs(a, i + da) || Occurs(b, i + db)
  {
    UsedIsWord(a);
    UsedIsWord(b);
    UsedOrBits(wa, wb, i);
    if da == 0 { SummaryExact(a, i); } else { HalfBit(a, i); }
    if db == 0 { SummaryExact(b, i); } else { HalfBit(b, i); }
  }

  lemma OverflowStep(e: Term)
    ensures Used(e) == USED_OVERFLOW <==> Overflows(e) || PartOverflows(e)
  {
    PartsSummaries(e);
    UsedIsWord(e);
    WordSize();
    if e.BVar? {
      if e.i < 64 {
        assert Pow2(e.i) < WORD_MAX by { Pow2Mono(e.i, 63); }
        assert !Occurs(e, if e.i == 0 then 1 else 0);
      }
    } else if !PartOverflows(e) {
      hide Used, PartOverflows, Bit;
      forall i: nat | i < 64 ensures Bit(Used(e), i) <==> Occurs(e, i) { BitsOfParts(e, i); }
      AllBitsMax(Used(e), 64);
    }
  }

  /** The word overflows exactly when somewhere in the term a variable number 64 or more is written, bound or not,
      or all of 0 to 63 are loose at once. */
  lemma {:induction false} OverflowExact(e: Term)
    ensures Used(e) == 0xFFFF_FFFF_FFFF_FFFF <==> exists path :: OverflowsAt(e, path)
  {
    if Used(e) == USED_OVERFLOW { var path := OverflowPath(e); }
    if path :| OverflowsAt(e, path) { PathOverflows(e, path); }
  }

  lemma {:induction false} OverflowPath(e: Term) returns (path: seq<nat>)
    requires Used(e) == USED_OVERFLOW
    ensures OverflowsAt(e, path)
  {
    OverflowStep(e);
    hide Used, Overflows;
    path := [];
    if Overflows(e) {
      assert At(e, []) == Some((e, 0));
    } else {
      PartsSmaller(e);
      var k :| 0 <= k < |Parts(e)| && Used(Parts(e)[k].0) == USED_OVERFLOW;
      path := OverflowPath(Parts(e)[k].0);
      assert ([k] + path)[1..] == path;
      path := [k] + path;
    }
  }

  lemma {:induction false} PathOverflows(e: Term, path: seq<nat>)
    requires OverflowsAt(e, path)
    ensures Used(e) == USED_OVERFLOW
    decreases |path|
  {
    OverflowStep(e);
    hide Used, Overflows;
    if path != [] { PathOverflows(Parts(e)[path[0]].0, path[1..]); }
  }
}
