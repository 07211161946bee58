/**
 What the bytes of a stored proof are, what the reader refuses, and that nothing accepted
 can be continued to something else accepted.
 */
module FormatLaws {
  import opened Terms
  import opened Nodes
  import opened PostOrder
  import opened Words
  import opened Wire
  import opened Streams
  import opened Codec
  import L = Levels

  // --------------------------------------------------------------- the format

  /** Small numbers are one byte; larger ones have their low seven bits first. */
  lemma VarintBytes(v: nat)
    ensures v < 128 ==> PutVarint(v) == [v]
    ensures 128 <= v < 0x4000 ==> PutVarint(v) == [v % 128 + 128, v / 128]
  {}

  lemma LevelBytes(a: L.Level, b: L.Level, n: nat)
    requires n < 128
    ensures PutLevel(L.Zero) == [0] && PutLevel(L.Succ(a)) == [1] + PutLevel(a) && PutLevel(L.Param(n)) == [4, n]
    ensures PutLevel(L.Max(a, b)) == [2] + PutLevel(a) + PutLevel(b)
    ensures PutLevel(L.IMax(a, b)) == [3] + PutLevel(a) + PutLevel(b)
  {}

  /** The bytes of every kind of node, with numbers that fit into one byte each. */
  lemma BranchBytes(a: Byte, b: Byte, c: Byte)
    requires a < 128 && b < 128 && c < 128
    ensures PutEntry(AppD(a, b)) == [3, a, b]
    ensures PutEntry(LamD(Default, a, b)) == [4, 0, a, b] && PutEntry(LamD(Implicit, a, b)) == [4, 1, a, b]
    ensures PutEntry(PiD(StrictImplicit, a, b)) == [5, 2, a, b] && PutEntry(PiD(InstImplicit, a, b)) == [5, 3, a, b]
    ensures PutEntry(LetD(a, b, c)) == [6, a, b, c] && PutEntry(ProjD(a, b, c)) == [7, a, b, c]
  {
    VarintBytes(a);
    VarintBytes(b);
    VarintBytes(c);
    hide PutVarint, PutLevel;
  }

  lemma LeafBytes(a: Byte, b: Byte)
    requires a < 128 && b < 128
    ensures PutEntry(BVarD(a)) == [0, a] && PutEntry(SortD(L.Succ(L.Param(a)))) == [1, 1, 4, a]
    ensures PutEntry(ConstD(a, [L.Zero, L.Param(b)])) == [2, a, 2, 0, 4, b]
    ensures PutEntry(LitD(NatLit(a))) == [8, 1, a] && PutEntry(LitD(NatLit(a + 256 * (b + 1)))) == [8, 2, a, b + 1]
    ensures PutEntry(LitD(StrLit([b, a]))) == [9, 2, b, a]
  {
    VarintBytes(a);
    VarintBytes(b);
    VarintBytes(1);
    VarintBytes(2);
    LevelBytes(L.Param(a), L.Zero, a);
    LevelBytes(L.Zero, L.Zero, b);
    var us := [L.Zero, L.Param(b)];
    assert us[1..] == [L.Param(b)] && us[1..][1..] == [];
    assert PutLevels(us[1..][1..]) == [];
    assert PutLevels(us[1..]) == PutLevel(L.Param(b)) + PutLevels(us[1..][1..]);
    assert PutLevels(us) == PutLevel(L.Zero) + PutLevels(us[1..]);
    assert NatBytes(a) == [a] && NatBytes(a + 256 * (b + 1)) == [a, b + 1];
    hide PutVarint, PutLevel, PutLevels, NatBytes;
  }

  /** An application of two different leaves: function, argument, application. */
  lemma ApplicationBytes(root: ExprNode, f: ExprNode, x: ExprNode)
    requires Formed(root) && root.data == AppD(f, x)
    requires f.data == SortD(L.Zero) && x.data == BVarD(7)
    ensures Blob(root) == [3, 1, 0, 0, 7, 3, 0, 1]
  {
    FormedChildren(root);
    assert f in Children(root.data) && x in Children(root.data);
    var order := [f, x, root];
    PairVisit(root, f, x);
    hide Visit, Formed;
    assert Place(order, f) == 0 && Place(order, x) == 1 by {
      assert order[1..] == [x, root];
      assert Place(order[1..], x) == 0;
    }
    assert PutEntry(Placed(f.data, order)) == [1, 0];
    assert PutEntry(Placed(x.data, order)) == [0, 7];
    assert PutEntry(Placed(root.data, order)) == [3, 0, 1];
    ThreeEntries(order);
  }

  lemma PairVisit(root: ExprNode, f: ExprNode, x: ExprNode)
    requires Formed(root) && root.data == AppD(f, x) && Formed(f) && Formed(x) && f != x
    requires Children(f.data) == [] && Children(x.data) == [] && f.identity < root.identity
             && x.identity < root.identity
    ensures Visit([], root) == [f, x, root]
  {
    assert Visit([], f) == [f];
    assert Visit([f], x) == [f, x];
    assert [f, x][1..] == [x] && [x][1..] == [];
    assert VisitAll([f], [x], root.identity) == [f, x];
    assert VisitAll([], [f, x], root.identity) == [f, x];
  }

  lemma ThreeEntries(order: seq<ExprNode>)
    requires |order| == 3
    ensures Entries(order, 0)
         == PutEntry(Placed(order[0].data, order)) + PutEntry(Placed(order[1].data, order))
            + PutEntry(Placed(order[2].data, order))
    ensures PutVarint(|order|) == [3]
  {
    hide PutEntry, Placed;
    assert Entries(order, 3) == [];
    assert Entries(order, 2) == PutEntry(Placed(order[2].data, order)) + Entries(order, 3);
    assert Entries(order, 1) == PutEntry(Placed(order[1].data, order)) + Entries(order, 2);
  }

  /** What is reachable from the first child is written before anything else. */
  lemma FirstChildFirst(root: ExprNode)
    requires Formed(root) && Children(root.data) != []
    ensures Formed(Children(root.data)[0]) && Visit([], Children(root.data)[0]) <= Visit([], root)
  {
    FormedChildren(root);
    var cs := Children(root.data);
    assert cs[0] in cs;
    VisitAllAdds(Visit([], cs[0]), cs[1..], root.identity);
  }

  // ---------------------------------------------------------------- refusals

  lemma UnknownBytesRefused(s: seq<Byte>, pos: nat, count: nat, depth: nat)
    requires pos < |s|
    ensures s[pos] > 9 ==> ReadEntry(s, pos, count) == Bad(UnknownTag)
    ensures s[pos] > 4 && depth <= 10_000 ==> ReadLevel(s, pos, depth) == Bad(UnknownLevelTag)
    ensures depth > 10_000 ==> ReadLevel(s, pos, depth) == Bad(LevelTooDeep)
    ensures s[pos] > 3 ==> ReadBinder(s, pos) == Bad(UnknownBinder)
  {}

  /** Whatever is accepted names 32-bit numbers, earlier nodes, and text. */
  lemma AcceptedFits(s: seq<Byte>, pos: nat, count: nat)
    requires pos <= |s| && ReadEntry(s, pos, count).Got?
    ensures match ReadEntry(s, pos, count).value
            case BVarD(i) => i < 0x1_0000_0000
            case ConstD(n, _) => n < 0x1_0000_0000
            case ProjD(n, i, v) => n < 0x1_0000_0000 && i < 0x1_0000_0000 && v < count
            case AppD(f, x) => f < count && x < count
            case LamD(_, ty, body) => ty < count && body < count
            case PiD(_, ty, body) => ty < count && body < count
            case LetD(ty, val, body) => ty < count && val < count && body < count
            case LitD(StrLit(b)) => Utf8(b, 0)
            case _ => true
  {
    hide ReadLevel, ReadLevels, ReadVarint, Utf8, BytesNat;
  }

  /** Text is ASCII, or longer sequences; overlong forms, surrogates and numbers past 0x10FFFF are none. */
  lemma Utf8Bounds(b: Byte, c: Byte)
    ensures Utf8([b], 0) <==> b < 0x80
    ensures Utf8([b, c], 0) <==> (b < 0x80 && c < 0x80) || (0xC2 <= b <= 0xDF && 0x80 <= c <= 0xBF)
    ensures Utf8([0xE0, b, c], 0) <==> 0xA0 <= b <= 0xBF && 0x80 <= c <= 0xBF
    ensures Utf8([0xED, b, c], 0) <==> 0x80 <= b <= 0x9F && 0x80 <= c <= 0xBF
    ensures Utf8([0xF0, b, c, 0x80], 0) <==> 0x90 <= b <= 0xBF && 0x80 <= c <= 0xBF
    ensures Utf8([0xF4, b, c, 0x80], 0) <==> 0x80 <= b <= 0x8F && 0x80 <= c <= 0xBF
  {
    var s := [b, c];
    assert Utf8(s, 2);
    assert Utf8(s, 1) <==> c < 0x80;
  }

  // ---------------------------------------------------------- nothing follows

  /** What was read from the start of a stream is read the same with more behind it. */
  lemma {:induction false} VarintMore(s: seq<Byte>, t: seq<Byte>, pos: nat, v: nat, shift: nat)
    requires s <= t && pos <= |s| && ReadVarintAt(s, pos, v, shift).Got?
    ensures ReadVarintAt(t, pos, v, shift) == ReadVarintAt(s, pos, v, shift)
    decreases |s| - pos
  {
    hide Or;
    if s[pos] >= 128 { VarintMore(s, t, pos + 1, Or(v, Scaled(s[pos] % 128, shift) % U64), shift + 7); }
  }

  lemma U32More(s: seq<Byte>, t: seq<Byte>, pos: nat)
    requires s <= t && pos <= |s|
    ensures ReadVarint(s, pos).Got? ==> ReadVarint(t, pos) == ReadVarint(s, pos)
    ensures ReadU32(s, pos).Got? ==> ReadU32(t, pos) == ReadU32(s, pos)
  {
    hide ReadVarintAt;
    if ReadVarint(s, pos).Got? { VarintMore(s, t, pos, 0, 0); }
  }

  lemma {:induction false} LevelMore(s: seq<Byte>, t: seq<Byte>, pos: nat, depth: nat)
    requires s <= t && pos <= |s| && ReadLevel(s, pos, depth).Got?
    ensures ReadLevel(t, pos, depth) == ReadLevel(s, pos, depth)
    decreases |s| - pos
  {
    hide ReadU32, L.MkMax, L.MkIMax;
    U32More(s, t, pos + 1);
    if 1 <= s[pos] <= 3 {
      LevelMore(s, t, pos + 1, depth + 1);
      if s[pos] != 1 { LevelMore(s, t, ReadLevel(s, pos + 1, depth + 1).next, depth + 1); }
    }
  }

  lemma {:induction false} LevelsMore(s: seq<Byte>, t: seq<Byte>, pos: nat, k: nat)
    requires s <= t && pos <= |s| && ReadLevels(s, pos, k).Got?
    ensures ReadLevels(t, pos, k) == ReadLevels(s, pos, k)
    decreases k
  {
    hide ReadLevel;
    if k > 0 {
      LevelMore(s, t, pos, 0);
      LevelsMore(s, t, ReadLevel(s, pos, 0).next, k - 1);
    }
  }

  lemma RefsMore(s: seq<Byte>, t: seq<Byte>, pos: nat, count: nat)
    requires s <= t && pos <= |s|
    ensures ReadRef(s, pos, count).Got? ==> ReadRef(t, pos, count) == ReadRef(s, pos, count)
    ensures ReadTwo(s, pos, count).Got? ==> ReadTwo(t, pos, count) == ReadTwo(s, pos, count)
  {
    hide ReadVarint;
    U32More(s, t, pos);
    var a := ReadRef(s, pos, count);
    if a.Got? { U32More(s, t, a.next); }
  }

  lemma ConstMore(s: seq<Byte>, t: seq<Byte>, pos: nat)
    requires s <= t && pos <= |s| && ReadConst(s, pos).Got?
    ensures ReadConst(t, pos) == ReadConst(s, pos)
  {
    hide ReadVarint, ReadU32, ReadLevels;
    U32More(s, t, pos);
    var n := ReadU32(s, pos);
    U32More(s, t, n.next);
    var k := ReadVarint(s, n.next);
    LevelsMore(s, t, k.next, k.value);
  }

  lemma BranchMore(s: seq<Byte>, t: seq<Byte>, pos: nat, count: nat, isLam: bool)
    requires s <= t && pos <= |s|
    ensures ReadBound(s, pos, count, isLam).Got? ==> ReadBound(t, pos, count, isLam) == ReadBound(s, pos, count, isLam)
    ensures ReadLet(s, pos, count).Got? ==> ReadLet(t, pos, count) == ReadLet(s, pos, count)
  {
    hide ReadTwo, ReadRef;
    var bi := ReadBinder(s, pos);
    if bi.Got? { RefsMore(s, t, bi.next, count); }
    RefsMore(s, t, pos, count);
    var refs := ReadTwo(s, pos, count);
    if refs.Got? { RefsMore(s, t, refs.next, count); }
  }

  lemma PayloadMore(s: seq<Byte>, t: seq<Byte>, pos: nat, count: nat)
    requires s <= t && pos <= |s|
    ensures ReadProj(s, pos, count).Got? ==> ReadProj(t, pos, count) == ReadProj(s, pos, count)
    ensures ReadPayload(s, pos).Got? ==> ReadPayload(t, pos) == ReadPayload(s, pos)
  {
    hide ReadVarint, ReadU32, ReadRef;
    U32More(s, t, pos);
    var n := ReadU32(s, pos);
    if n.Got? {
      U32More(s, t, n.next);
      var i := ReadU32(s, n.next);
      if i.Got? { RefsMore(s, t, i.next, count); }
    }
    var len := ReadVarint(s, pos);
    if len.Got? && len.next + len.value <= |s| {
      assert s[len.next..len.next + len.value] == t[len.next..len.next + len.value];
    }
  }

  lemma EntryMore(s: seq<Byte>, t: seq<Byte>, pos: nat, count: nat)
    requires s <= t && pos <= |s| && ReadEntry(s, pos, count).Got?
    ensures ReadEntry(t, pos, count) == ReadEntry(s, pos, count)
  {
    hide ReadU32, ReadLevel, ReadConst, ReadTwo, ReadBound, ReadLet, ReadProj, ReadPayload, Utf8, BytesNat;
    var tag, at := s[pos], pos + 1;
    if tag == 0 { U32More(s, t, at); }
    else if tag == 1 { LevelMore(s, t, at, 0); }
    else if tag == 2 { ConstMore(s, t, at); }
    else if tag == 3 { RefsMore(s, t, at, count); }
    else if tag <= 6 { BranchMore(s, t, at, count, tag == 4); }
    else { PayloadMore(s, t, at, count); }
  }

  lemma {:induction false} DecodeFromMore(s: seq<Byte>, t: seq<Byte>, pos: nat, pool: seq<Term>, left: nat)
    requires s <= t && pos <= |s| && DecodeFrom(s, pos, pool, left).Got?
    ensures DecodeFrom(t, pos, pool, left) == DecodeFrom(s, pos, pool, left)
    decreases left
  {
    hide ReadEntry, BuildTerm;
    if left > 0 {
      EntryMore(s, t, pos, |pool|);
      var d := ReadEntry(s, pos, |pool|);
      DecodeFromMore(s, t, d.next, pool + [BuildTerm(d.value, pool)], left - 1);
    }
  }

  /** An accepted proof followed by anything at all is refused, and so is an accepted proof cut short anywhere. */
  lemma NothingFollows(s: seq<Byte>, more: seq<Byte>)
    requires more != []
    ensures Decode(s).Value? ==> Decode(s + more) == Fail(TrailingBytes)
    ensures Decode(s + more).Value? ==> Decode(s).Fail?
  {
    hide ReadVarint, DecodeFrom;
    if Decode(s).Value? {
      U32More(s, s + more, 0);
      var count := ReadVarint(s, 0);
      DecodeFromMore(s, s + more, count.next, [], count.value);
    }
  }

  /** No proof has no nodes. */
  lemma EmptyRefused()
    ensures Decode([]) == Fail(Truncated) && Decode([0]) == Fail(EmptyProof)
  {
    assert ReadVarint([0], 0) == Got(0, 1) by { assert Scaled(0, 0) == 0; }
  }
}
