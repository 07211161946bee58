/**
 The byte format of stored proofs: variable-length integers, levels, and one entry per
 node with children given by position. Each writer is paired with the reader that
 inverts it; reading a level re-runs the smart constructors.
 */
module Wire {
  import opened Naturals
  import opened Terms
  import opened Nodes
  import opened Words
  import L = Levels

  datatype ParseError =
    | Truncated | VarintTooLong | Over32 | LevelTooDeep | UnknownLevelTag | UnknownBinder | UnknownTag
    | LaterNode | EmptyProof | TrailingBytes | NotUtf8

  /** A value and the position after it. */
  datatype Parsed<+T> = Got(value: T, next: nat) | Bad(error: ParseError)

  const U64: nat := 0x1_0000_0000_0000_0000
  const MAX_LEVEL_DEPTH: nat := 10_000

  // ----------------------------------------------------------------- varints

  function PutVarint(v: nat): seq<Byte> {
    if v < 128 then [v] else [v % 128 + 128] + PutVarint(v / 128)
  }

  function ReadVarintAt(s: seq<Byte>, pos: nat, v: nat, shift: nat): (r: Parsed<nat>)
    requires pos <= |s|
    ensures r.Got? ==> pos < r.next <= |s|
    decreases |s| - pos
  {
    if pos == |s| then Bad(Truncated)
    else if shift >= 64 then Bad(VarintTooLong)
    else
      var v' := Or(v, Scaled(s[pos] % 128, shift) % U64);
      if s[pos] < 128 then Got(v', pos + 1) else ReadVarintAt(s, pos + 1, v', shift + 7)
  }

  function ReadVarint(s: seq<Byte>, pos: nat): (r: Parsed<nat>)
    requires pos <= |s|
    ensures r.Got? ==> pos < r.next <= |s|
  {
    ReadVarintAt(s, pos, 0, 0)
  }

  /** `w` is written in `s` at `pos`. */
  predicate At(s: seq<Byte>, pos: nat, w: seq<Byte>) { pos + |w| <= |s| && s[pos..pos + |w|] == w }

  lemma AtSplit(s: seq<Byte>, pos: nat, u: seq<Byte>, v: seq<Byte>)
    requires At(s, pos, u + v)
    ensures pos + |u| + |v| <= |s| && At(s, pos, u) && At(s, pos + |u|, v)
  {
    var w := s[pos..pos + |u + v|];
    assert s[pos..pos + |u|] == w[..|u|] == u;
    assert s[pos + |u|..pos + |u| + |v|] == w[|u|..] == v;
  }

  lemma AtBounds(s: seq<Byte>, pos: nat, w: seq<Byte>)
    requires At(s, pos, w)
    ensures pos + |w| <= |s|
  {}

  lemma AtHead(s: seq<Byte>, pos: nat, b: Byte, v: seq<Byte>)
    requires At(s, pos, [b] + v)
    ensures pos + 1 + |v| <= |s| && s[pos] == b && At(s, pos + 1, v)
  {
    AtSplit(s, pos, [b], v);
    assert s[pos] == s[pos..pos + 1][0];
  }

  function Scaled(v: nat, shift: nat): nat { v * Pow2(shift) }

  /** Combining bits below `shift` with a multiple of `2^shift` is adding them. */
  lemma {:induction false} OrDisjoint(v: nat, q: nat, shift: nat)
    requires v < Pow2(shift)
    ensures Or(v, q * Pow2(shift)) == v + q * Pow2(shift)
    decreases shift
  {
    if shift == 0 {
    } else if v == 0 || q == 0 {
      assert q * Pow2(shift) == 0 || v == 0;
    } else {
      var x := q * Pow2(shift);
      assert x == 2 * (q * Pow2(shift - 1)) by { assert Pow2(shift) == 2 * Pow2(shift - 1); }
      assert x > 0;
      OrDisjoint(v / 2, q, shift - 1);
    }
  }

  lemma {:induction false} VarintAtRoundTrip(v: nat, s: seq<Byte>, pos: nat, acc: nat, shift: nat)
    requires At(s, pos, PutVarint(v))
    requires shift < 64 && acc < Pow2(shift) && Scaled(v, shift) < U64
    ensures ReadVarintAt(s, pos, acc, shift) == Got(acc + Scaled(v, shift), pos + |PutVarint(v)|)
    decreases v
  {
    hide At, Or, Pow2, Scaled;
    VarintStep(v, acc, shift);
    if v < 128 {
      assert PutVarint(v) == [v] + [];
      AtHead(s, pos, v, []);
    } else {
      AtHead(s, pos, v % 128 + 128, PutVarint(v / 128));
      VarintAtRoundTrip(v / 128, s, pos + 1, acc + Scaled(v % 128, shift), shift + 7);
    }
  }

  /** The arithmetic of one seven-bit group. */
  lemma VarintStep(v: nat, acc: nat, shift: nat)
    requires shift < 64 && acc < Pow2(shift) && Scaled(v, shift) < U64
    ensures Or(acc, Scaled(v % 128, shift) % U64) == acc + Scaled(v % 128, shift)
    ensures acc + Scaled(v % 128, shift) < Pow2(shift + 7)
    ensures Scaled(v, shift) == Scaled(v % 128, shift) + Scaled(v / 128, shift + 7)
    ensures Scaled(v / 128, shift + 7) < U64
    ensures v < 128 ==> Scaled(v / 128, shift + 7) == 0
    ensures v >= 128 ==> shift + 7 < 64
  {
    hide Or, Pow2;
    Pow2Plus7(shift);
    GroupNext(v, Pow2(shift), Pow2(shift + 7), acc);
    OrGroup(v, acc, shift);
    if v >= 128 && shift + 7 >= 64 {
      Pow2Mono(64, shift + 7);
      WordSize();
    }
  }

  lemma OrGroup(v: nat, acc: nat, shift: nat)
    requires acc < Pow2(shift) && v * Pow2(shift) < U64
    ensures Or(acc, (v % 128) * Pow2(shift) % U64) == acc + (v % 128) * Pow2(shift)
  {
    hide Or, Pow2;
    var x := (v % 128) * Pow2(shift);
    MulMono(v % 128, v, Pow2(shift));
    assert x % U64 == x;
    OrDisjoint(acc, v % 128, shift);
  }

  lemma GroupNext(v: nat, p: nat, q: nat, acc: nat)
    requires q == 128 * p && acc < p && v * p < U64
    ensures acc + (v % 128) * p < q && v * p == (v % 128) * p + (v / 128) * q && (v / 128) * q < U64
    ensures v >= 128 ==> q < U64
  {
    GroupBounds(v, p);
  }

  lemma GroupBounds(v: nat, p: nat)
    ensures (v % 128) * p <= v * p && (v % 128) * p + p <= 128 * p
    ensures v * p == (v % 128) * p + (v / 128) * (128 * p)
    ensures v >= 128 ==> 128 * p <= (v / 128) * (128 * p)
  {
    SplitProduct(v, p);
    var low, high := v % 128, v / 128;
    MulMono(low, v, p);
    MulMono(low + 1, 128, p);
    assert (low + 1) * p == low * p + p;
    if v >= 128 { MulMono(1, high, 128 * p); }
  }

  lemma MulMono(a: nat, b: nat, p: nat)
    requires a <= b
    ensures a * p <= b * p
  {}

  lemma SplitProduct(v: nat, p: nat)
    ensures v * p == (v % 128) * p + (v / 128) * (128 * p)
  {
    assert v == v % 128 + 128 * (v / 128);
    assert (v % 128 + 128 * (v / 128)) * p == (v % 128) * p + (128 * (v / 128)) * p;
    assert (128 * (v / 128)) * p == (v / 128) * (128 * p);
  }

  lemma Pow2Plus7(k: nat)
    ensures Pow2(k + 7) == 128 * Pow2(k)
  {
    assert Pow2(k + 2) == 4 * Pow2(k);
    assert Pow2(k + 4) == 4 * Pow2(k + 2);
    assert Pow2(k + 6) == 4 * Pow2(k + 4);
  }

  /** Every 64-bit value comes back. */
  lemma VarintRoundTrip(v: nat, s: seq<Byte>, pos: nat)
    requires v < U64 && At(s, pos, PutVarint(v))
    ensures ReadVarint(s, pos) == Got(v, pos + |PutVarint(v)|)
  {
    assert Scaled(v, 0) == v;
    VarintAtRoundTrip(v, s, pos, 0, 0);
  }

  function ReadU32(s: seq<Byte>, pos: nat): (r: Parsed<nat>)
    requires pos <= |s|
    ensures r.Got? ==> pos < r.next <= |s| && r.value < U32
  {
    var r := ReadVarint(s, pos);
    if r.Bad? then r else if r.value >= U32 then Bad(Over32) else r
  }

  // ------------------------------------------------------------------ levels

  function PutLevel(l: L.Level): seq<Byte> {
    match l
    case Zero => [0]
    case Succ(a) => [1] + PutLevel(a)
    case Max(a, b) => [2] + PutLevel(a) + PutLevel(b)
    case IMax(a, b) => [3] + PutLevel(a) + PutLevel(b)
    case Param(n) => [4] + PutVarint(n)
  }

  function ReadLevel(s: seq<Byte>, pos: nat, depth: nat): (r: Parsed<L.Level>)
    requires pos <= |s|
    ensures r.Got? ==> pos < r.next <= |s|
    decreases |s| - pos
  {
    if depth > MAX_LEVEL_DEPTH then Bad(LevelTooDeep)
    else if pos == |s| then Bad(Truncated)
    else if s[pos] == 0 then Got(L.Zero, pos + 1)
    else if s[pos] == 1 then
      var a := ReadLevel(s, pos + 1, depth + 1);
      if a.Bad? then a else Got(L.Succ(a.value), a.next)
    else if s[pos] == 2 || s[pos] == 3 then
      var a := ReadLevel(s, pos + 1, depth + 1);
      if a.Bad? then a
      else
        var b := ReadLevel(s, a.next, depth + 1);
        if b.Bad? then b else Got(if s[pos] == 2 then L.MkMax(a.value, b.value) else L.MkIMax(a.value, b.value), b.next)
    else if s[pos] == 4 then
      var n := ReadU32(s, pos + 1);
      if n.Bad? then Bad(n.error) else Got(L.Param(n.value), n.next)
    else Bad(UnknownLevelTag)
  }

  function Height(l: L.Level): nat {
    match l
    case Zero => 0
    case Param(_) => 0
    case Succ(a) => 1 + Height(a)
    case Max(a, b) => 1 + MaxNat(Height(a), Height(b))
    case IMax(a, b) => 1 + MaxNat(Height(a), Height(b))
  }

  /** Parameter names are 32-bit. */
  predicate LevelFits(l: L.Level) {
    match l
    case Zero => true
    case Param(n) => n < U32
    case Succ(a) => LevelFits(a)
    case Max(a, b) => LevelFits(a) && LevelFits(b)
    case IMax(a, b) => LevelFits(a) && LevelFits(b)
  }

  /** The level with every smart constructor run again. */
  function RebuildLevel(l: L.Level): L.Level {
    match l
    case Zero => l
    case Param(_) => l
    case Succ(a) => L.Succ(RebuildLevel(a))
    case Max(a, b) => L.MkMax(RebuildLevel(a), RebuildLevel(b))
    case IMax(a, b) => L.MkIMax(RebuildLevel(a), RebuildLevel(b))
  }

  /** A written level reads back rebuilt, or is refused exactly when it is too deep. */
  lemma {:induction false} LevelRoundTrip(l: L.Level, s: seq<Byte>, pos: nat, depth: nat)
    requires LevelFits(l) && depth <= MAX_LEVEL_DEPTH + 1 && At(s, pos, PutLevel(l))
    ensures ReadLevel(s, pos, depth)
         == if depth + Height(l) > MAX_LEVEL_DEPTH then Bad(LevelTooDeep) else Got(RebuildLevel(l), pos + |PutLevel(l)|)
    decreases l, 1
  {
    hide At, PutVarint, ReadVarint, L.MkMax, L.MkIMax;
    if depth <= MAX_LEVEL_DEPTH {
      match l
      case Zero => assert PutLevel(l) == [0] + []; AtHead(s, pos, 0, []);
      case Param(n) => AtHead(s, pos, 4, PutVarint(n)); VarintRoundTrip(n, s, pos + 1);
      case Succ(a) => AtHead(s, pos, 1, PutLevel(a)); LevelRoundTrip(a, s, pos + 1, depth + 1);
      case Max(a, b) =>
        LevelPairRoundTrip(l, 2, a, b, s, pos, depth);
      case IMax(a, b) =>
        LevelPairRoundTrip(l, 3, a, b, s, pos, depth);
    }
  }

  lemma ReadLevelPair(s: seq<Byte>, pos: nat, depth: nat)
    requires pos < |s| && (s[pos] == 2 || s[pos] == 3) && depth <= MAX_LEVEL_DEPTH
    ensures ReadLevel(s, pos, depth)
         == var a := ReadLevel(s, pos + 1, depth + 1);
            if a.Bad? then a
            else
              var b := ReadLevel(s, a.next, depth + 1);
              if b.Bad? then b
                 else Got(if s[pos] == 2 then L.MkMax(a.value, b.value) else L.MkIMax(a.value, b.value), b.next)
  {
    hide L.MkMax, L.MkIMax;
  }

  lemma {:induction false} LevelPairRoundTrip(l: L.Level, tag: Byte, a: L.Level, b: L.Level, s: seq<Byte>, pos: nat,
                                              depth: nat)
    requires (tag == 2 && l == L.Max(a, b)) || (tag == 3 && l == L.IMax(a, b))
    requires LevelFits(a) && LevelFits(b) && depth <= MAX_LEVEL_DEPTH && At(s, pos, [tag] + PutLevel(a) + PutLevel(b))
    ensures ReadLevel(s, pos, depth)
         == if depth + 1 + MaxNat(Height(a), Height(b)) > MAX_LEVEL_DEPTH then Bad(LevelTooDeep)
            else Got(if tag == 2 then L.MkMax(RebuildLevel(a), RebuildLevel(b))
                     else L.MkIMax(RebuildLevel(a), RebuildLevel(b)),
                     pos + 1 + |PutLevel(a)| + |PutLevel(b)|)
    decreases l, 0
  {
    hide At, PutLevel, L.MkMax, L.MkIMax, ReadLevel, RebuildLevel, Height, LevelFits;
    AtPair(s, pos, tag, PutLevel(a), PutLevel(b));
    ReadLevelPair(s, pos, depth);
    LevelRoundTrip(a, s, pos + 1, depth + 1);
    LevelRoundTrip(b, s, pos + 1 + |PutLevel(a)|, depth + 1);
  }

  lemma AtPair(s: seq<Byte>, pos: nat, tag: Byte, u: seq<Byte>, v: seq<Byte>)
    requires At(s, pos, [tag] + u + v)
    ensures pos + 1 + |u| + |v| <= |s| && s[pos] == tag && At(s, pos + 1, u) && At(s, pos + 1 + |u|, v)
  {
    assert [tag] + u + v == [tag] + (u + v);
    AtHead(s, pos, tag, u + v);
    AtSplit(s, pos + 1, u, v);
  }

  lemma AtTriple(s: seq<Byte>, pos: nat, tag: Byte, u: seq<Byte>, v: seq<Byte>, w: seq<Byte>)
    requires At(s, pos, [tag] + u + v + w)
    ensures pos + 1 + |u| + |v| + |w| <= |s| && s[pos] == tag
    ensures At(s, pos + 1, u) && At(s, pos + 1 + |u|, v) && At(s, pos + 1 + |u| + |v|, w)
  {
    assert [tag] + u + v + w == [tag] + u + (v + w);
    AtPair(s, pos, tag, u, v + w);
    AtSplit(s, pos + 1 + |u|, v, w);
  }

  lemma {:induction false} RebuildWeight(l: L.Level)
    ensures L.Weight(RebuildLevel(l)) <= L.Weight(l)
  {
    match l
    case Succ(a) => RebuildWeight(a);
    case Max(a, b) =>
      RebuildWeight(a);
      RebuildWeight(b);
      L.MkMaxWeight(RebuildLevel(a), RebuildLevel(b));
    case IMax(a, b) =>
      RebuildWeight(a);
      RebuildWeight(b);
      L.MkMaxWeight(RebuildLevel(a), RebuildLevel(b));
    case _ =>
  }

  /** Rebuilding changes nothing exactly on the levels the smart constructors build. */
  lemma {:induction false} RebuildExact(l: L.Level)
    ensures RebuildLevel(l) == l <==> L.Canon(l)
  {
    hide L.MkMax, L.MkIMax;
    match l
    case Succ(a) => RebuildExact(a);
    case Max(a, b) =>
      RebuildExact(a);
      RebuildExact(b);
      RebuildWeight(a);
      RebuildWeight(b);
      MkMaxSame(RebuildLevel(a), RebuildLevel(b), a, b);
    case IMax(a, b) =>
      RebuildExact(a);
      RebuildExact(b);
      RebuildWeight(a);
      RebuildWeight(b);
      MkIMaxSame(RebuildLevel(a), RebuildLevel(b), a, b);
    case _ =>
  }

  /** A smart constructor on parts no heavier than `a` and `b` builds `Max(a, b)` only from those very parts. */
  lemma MkMaxSame(x: L.Level, y: L.Level, a: L.Level, b: L.Level)
    requires L.Weight(x) <= L.Weight(a) && L.Weight(y) <= L.Weight(b)
    ensures L.MkMax(x, y) == L.Max(a, b) ==> x == a && y == b
  {}

  lemma MkIMaxSame(x: L.Level, y: L.Level, a: L.Level, b: L.Level)
    requires L.Weight(x) <= L.Weight(a) && L.Weight(y) <= L.Weight(b)
    ensures L.MkIMax(x, y) == L.IMax(a, b) ==> x == a && y == b
  {
    if L.IsNotZero(y) { MkMaxNotIMax(x, y, L.IMax(a, b)); }
  }

  lemma MkMaxNotIMax(x: L.Level, y: L.Level, l: L.Level)
    requires l.IMax? && L.Weight(x) < L.Weight(l) && L.Weight(y) < L.Weight(l)
    ensures L.MkMax(x, y) != l
  {}

  // -------------------------------------------------------------- level lists

  function PutLevels(us: seq<L.Level>): seq<Byte> {
    if us == [] then [] else PutLevel(us[0]) + PutLevels(us[1..])
  }

  function ReadLevels(s: seq<Byte>, pos: nat, k: nat): (r: Parsed<seq<L.Level>>)
    requires pos <= |s|
    ensures r.Got? ==> pos <= r.next <= |s|
    decreases k
  {
    if k == 0 then Got([], pos)
    else
      var l := ReadLevel(s, pos, 0);
      if l.Bad? then Bad(l.error)
      else
        var rest := ReadLevels(s, l.next, k - 1);
        if rest.Bad? then rest else Got([l.value] + rest.value, rest.next)
  }

  predicate LevelsFit(us: seq<L.Level>) { |us| < U64 && forall k :: 0 <= k < |us| ==> LevelFits(us[k]) }

  predicate LevelsShallow(us: seq<L.Level>) { forall k :: 0 <= k < |us| ==> Height(us[k]) <= MAX_LEVEL_DEPTH }

  function RebuildLevels(us: seq<L.Level>): (r: seq<L.Level>)
    ensures |r| == |us| && forall k :: 0 <= k < |us| ==> r[k] == RebuildLevel(us[k])
  {
    seq(|us|, k requires 0 <= k < |us| => RebuildLevel(us[k]))
  }

  lemma {:induction false} LevelsRoundTrip(us: seq<L.Level>, s: seq<Byte>, pos: nat)
    requires LevelsFit(us) && At(s, pos, PutLevels(us))
    ensures ReadLevels(s, pos, |us|)
         == if LevelsShallow(us) then Got(RebuildLevels(us), pos + |PutLevels(us)|) else Bad(LevelTooDeep)
    decreases |us|, 0
  {
    if us == [] {
      assert RebuildLevels(us) == [];
    } else {
      ShallowCons(us);
      RebuildCons(us);
      LevelsConsRoundTrip(us[0], us[1..], s, pos);
      hide *;
    }
  }

  lemma {:induction false} LevelsConsRoundTrip(l: L.Level, tail: seq<L.Level>, s: seq<Byte>, pos: nat)
    requires LevelFits(l) && LevelsFit(tail) && At(s, pos, PutLevel(l) + PutLevels(tail))
    ensures ReadLevels(s, pos, |tail| + 1)
         == if Height(l) <= MAX_LEVEL_DEPTH && LevelsShallow(tail)
            then Got([RebuildLevel(l)] + RebuildLevels(tail), pos + |PutLevel(l) + PutLevels(tail)|)
              else Bad(LevelTooDeep)
    decreases |tail|, 1
  {
    hide At, PutLevel, PutLevels, ReadLevel, LevelsShallow, Height, RebuildLevel, RebuildLevels, LevelsFit, LevelFits;
    AtSplit(s, pos, PutLevel(l), PutLevels(tail));
    LevelRoundTrip(l, s, pos, 0);
    LevelsRoundTrip(tail, s, pos + |PutLevel(l)|);
  }

  lemma RebuildCons(us: seq<L.Level>)
    requires us != []
    ensures RebuildLevels(us) == [RebuildLevel(us[0])] + RebuildLevels(us[1..])
  {
    hide RebuildLevel;
  }

  lemma ShallowCons(us: seq<L.Level>)
    requires us != []
    ensures LevelsFit(us) ==> LevelFits(us[0]) && LevelsFit(us[1..])
    ensures LevelsShallow(us) <==> Height(us[0]) <= MAX_LEVEL_DEPTH && LevelsShallow(us[1..])
  {
    hide Height, LevelFits;
    if !LevelsShallow(us[1..]) {
      var k :| 0 <= k < |us[1..]| && Height(us[1..][k]) > MAX_LEVEL_DEPTH;
      assert us[k + 1] == us[1..][k];
    }
  }

  // ---------------------------------------------------------- payload bytes

  /** Little-endian base-256 digits; zero has one digit. */
  function NatBytes(n: nat): seq<Byte> {
    if n < 256 then [n] else [n % 256] + NatBytes(n / 256)
  }

  function BytesNat(s: seq<Byte>): nat {
    if s == [] then 0 else s[0] + 256 * BytesNat(s[1..])
  }

  lemma {:induction false} NatBytesRoundTrip(n: nat)
    ensures BytesNat(NatBytes(n)) == n
  {
    if n >= 256 {
      NatBytesRoundTrip(n / 256);
      assert NatBytes(n)[1..] == NatBytes(n / 256);
    } else {
      assert NatBytes(n)[1..] == [];
    }
  }

  function ReadSlice(s: seq<Byte>, pos: nat, len: nat): (r: Parsed<seq<Byte>>)
    requires pos <= |s|
    ensures r.Got? ==> pos <= r.next <= |s|
  {
    if pos + len > |s| then Bad(Truncated) else Got(s[pos..pos + len], pos + len)
  }

  function BinderByte(bi: BinderInfo): Byte {
    match bi
    case Default => 0
    case Implicit => 1
    case StrictImplicit => 2
    case InstImplicit => 3
  }

  function ReadBinder(s: seq<Byte>, pos: nat): (r: Parsed<BinderInfo>)
    requires pos <= |s|
    ensures r.Got? ==> pos < r.next <= |s|
  {
    if pos == |s| then Bad(Truncated)
    else if s[pos] == 0 then Got(Default, pos + 1)
    else if s[pos] == 1 then Got(Implicit, pos + 1)
    else if s[pos] == 2 then Got(StrictImplicit, pos + 1)
    else if s[pos] == 3 then Got(InstImplicit, pos + 1)
    else Bad(UnknownBinder)
  }

  predicate ByteIn(s: seq<Byte>, k: nat, lo: Byte, hi: Byte) { k < |s| && lo <= s[k] <= hi }

  /** The length of the well-formed UTF-8 sequence at `k` (table 3-7 of the Unicode Standard); 0 if there is none. */
  function Utf8Length(s: seq<Byte>, k: nat): (n: nat)
    requires k < |s|
    ensures k + n <= |s|
  {
    var b := s[k];
    if b < 0x80 then 1
    else if 0xC2 <= b < 0xE0 then
      if ByteIn(s, k + 1, 0x80, 0xBF) then 2 else 0
    else if 0xE0 <= b < 0xF0 then
      if ByteIn(s, k + 1, if b == 0xE0 then 0xA0 else 0x80, if b == 0xED then 0x9F else 0xBF)
         && ByteIn(s, k + 2, 0x80, 0xBF) then 3 else 0
    else if 0xF0 <= b < 0xF5 then
      if ByteIn(s, k + 1, if b == 0xF0 then 0x90 else 0x80, if b == 0xF4 then 0x8F else 0xBF)
         && ByteIn(s, k + 2, 0x80, 0xBF) && ByteIn(s, k + 3, 0x80, 0xBF)
      then 4 else 0
    else 0
  }

  predicate Utf8(s: seq<Byte>, from: nat)
    requires from <= |s|
    decreases |s| - from
  {
    from == |s| || (Utf8Length(s, from) > 0 && Utf8(s, from + Utf8Length(s, from)))
  }

  // ------------------------------------------------------------------ entries

  function PutEntry(d: ExprData<nat>): seq<Byte> {
    match d
    case BVarD(i) => [0] + PutVarint(i)
    case SortD(l) => [1] + PutLevel(l)
    case ConstD(n, us) => [2] + PutVarint(n) + PutVarint(|us|) + PutLevels(us)
    case AppD(f, x) => [3] + PutVarint(f) + PutVarint(x)
    case LamD(bi, ty, body) => [4, BinderByte(bi)] + PutVarint(ty) + PutVarint(body)
    case PiD(bi, ty, body) => [5, BinderByte(bi)] + PutVarint(ty) + PutVarint(body)
    case LetD(ty, val, body) => [6] + PutVarint(ty) + PutVarint(val) + PutVarint(body)
    case ProjD(s, i, v) => [7] + PutVarint(s) + PutVarint(i) + PutVarint(v)
    case LitD(NatLit(n)) => [8] + PutVarint(|NatBytes(n)|) + NatBytes(n)
    case LitD(StrLit(b)) => [9] + PutVarint(|b|) + b
  }

  /** A reference to one of the `count` nodes already read. */
  function ReadRef(s: seq<Byte>, pos: nat, count: nat): (r: Parsed<nat>)
    requires pos <= |s|
    ensures r.Got? ==> pos < r.next <= |s| && r.value < count
  {
    var i := ReadVarint(s, pos);
    if i.Bad? then i else if i.value >= count then Bad(LaterNode) else i
  }

  lemma RefRoundTrip(i: nat, s: seq<Byte>, pos: nat, count: nat)
    requires At(s, pos, PutVarint(i)) && i < count <= U64
    ensures pos <= |s| && ReadRef(s, pos, count) == Got(i, pos + |PutVarint(i)|)
  {
    VarintRoundTrip(i, s, pos);
  }

  function ReadTwo(s: seq<Byte>, pos: nat, count: nat): (r: Parsed<(nat, nat)>)
    requires pos <= |s|
    ensures r.Got? ==> pos <= r.next <= |s| && r.value.0 < count && r.value.1 < count
  {
    var a := ReadRef(s, pos, count);
    if a.Bad? then Bad(a.error)
    else
      var b := ReadRef(s, a.next, count);
      if b.Bad? then Bad(b.error) else Got((a.value, b.value), b.next)
  }

  function ReadConst(s: seq<Byte>, pos: nat): (r: Parsed<ExprData<nat>>)
    requires pos <= |s|
    ensures r.Got? ==> pos <= r.next <= |s| && r.value.ConstD?
  {
    var n := ReadU32(s, pos);
    if n.Bad? then Bad(n.error)
    else
      var k := ReadVarint(s, n.next);
      if k.Bad? then Bad(k.error)
      else
        var us := ReadLevels(s, k.next, k.value);
        if us.Bad? then Bad(us.error) else Got(ConstD(n.value, us.value), us.next)
  }

  function ReadBound(s: seq<Byte>, pos: nat, count: nat, isLam: bool): (r: Parsed<ExprData<nat>>)
    requires pos <= |s|
    ensures r.Got? ==> pos <= r.next <= |s| && forall c :: c in Children(r.value) ==> c < count
  {
    var bi := ReadBinder(s, pos);
    if bi.Bad? then Bad(bi.error)
    else
      var refs := ReadTwo(s, bi.next, count);
      if refs.Bad? then Bad(refs.error)
      else Got(if isLam then LamD(bi.value, refs.value.0, refs.value.1)
               else PiD(bi.value, refs.value.0, refs.value.1), refs.next)
  }

  function ReadLet(s: seq<Byte>, pos: nat, count: nat): (r: Parsed<ExprData<nat>>)
    requires pos <= |s|
    ensures r.Got? ==> pos <= r.next <= |s| && forall c :: c in Children(r.value) ==> c < count
  {
    var refs := ReadTwo(s, pos, count);
    if refs.Bad? then Bad(refs.error)
    else
      var body := ReadRef(s, refs.next, count);
      if body.Bad? then Bad(body.error) else Got(LetD(refs.value.0, refs.value.1, body.value), body.next)
  }

  function ReadProj(s: seq<Byte>, pos: nat, count: nat): (r: Parsed<ExprData<nat>>)
    requires pos <= |s|
    ensures r.Got? ==> pos <= r.next <= |s| && forall c :: c in Children(r.value) ==> c < count
  {
    var n := ReadU32(s, pos);
    if n.Bad? then Bad(n.error)
    else
      var i := ReadU32(s, n.next);
      if i.Bad? then Bad(i.error)
      else
        var v := ReadRef(s, i.next, count);
        if v.Bad? then Bad(v.error) else Got(ProjD(n.value, i.value, v.value), v.next)
  }

  function ReadPayload(s: seq<Byte>, pos: nat): (r: Parsed<seq<Byte>>)
    requires pos <= |s|
    ensures r.Got? ==> pos <= r.next <= |s|
  {
    var len := ReadVarint(s, pos);
    if len.Bad? then Bad(len.error) else ReadSlice(s, len.next, len.value)
  }

  function ReadEntry(s: seq<Byte>, pos: nat, count: nat): (r: Parsed<ExprData<nat>>)
    requires pos <= |s|
    ensures r.Got? ==> pos < r.next <= |s| && forall c :: c in Children(r.value) ==> c < count
  {
    if pos == |s| then Bad(Truncated)
    else
      var tag, at := s[pos], pos + 1;
      if tag == 0 then
        var i := ReadU32(s, at);
        if i.Bad? then Bad(i.error) else Got(BVarD(i.value), i.next)
      else if tag == 1 then
        var l := ReadLevel(s, at, 0);
        if l.Bad? then Bad(l.error) else Got(SortD(l.value), l.next)
      else if tag == 2 then ReadConst(s, at)
      else if tag == 3 then
        var refs := ReadTwo(s, at, count);
        if refs.Bad? then Bad(refs.error) else Got(AppD(refs.value.0, refs.value.1), refs.next)
      else if tag == 4 || tag == 5 then ReadBound(s, at, count, tag == 4)
      else if tag == 6 then ReadLet(s, at, count)
      else if tag == 7 then ReadProj(s, at, count)
      else if tag == 8 || tag == 9 then
        var b := ReadPayload(s, at);
        if b.Bad? then Bad(b.error)
        else if tag == 8 then Got(LitD(NatLit(BytesNat(b.value))), b.next)
        else if Utf8(b.value, 0) then Got(LitD(StrLit(b.value)), b.next)
        else Bad(NotUtf8)
      else Bad(UnknownTag)
  }

  /** Indices and names are 32-bit, lengths 64-bit, strings UTF-8. */
  predicate EntryFits<R>(d: ExprData<R>) {
    match d
    case BVarD(i) => i < U32
    case SortD(l) => LevelFits(l)
    case ConstD(n, us) => n < U32 && LevelsFit(us)
    case ProjD(s, i, _) => s < U32 && i < U32
    case LitD(NatLit(n)) => |NatBytes(n)| < U64
    case LitD(StrLit(b)) => |b| < U64 && Utf8(b, 0)
    case _ => true
  }

  predicate EntryShallow<R>(d: ExprData<R>) {
    match d
    case SortD(l) => Height(l) <= MAX_LEVEL_DEPTH
    case ConstD(_, us) => LevelsShallow(us)
    case _ => true
  }

  function RebuildEntry<R>(d: ExprData<R>): ExprData<R> {
    match d
    case SortD(l) => SortD(RebuildLevel(l))
    case ConstD(n, us) => ConstD(n, RebuildLevels(us))
    case _ => d
  }

  /** A written entry reads back, its levels rebuilt, or is refused exactly when a level is too deep. */
  lemma EntryRoundTrip(d: ExprData<nat>, s: seq<Byte>, pos: nat, count: nat)
    requires EntryFits(d) && count <= U64 && At(s, pos, PutEntry(d))
    requires forall c :: c in Children(d) ==> c < count
    ensures ReadEntry(s, pos, count)
         == if EntryShallow(d) then Got(RebuildEntry(d), pos + |PutEntry(d)|) else Bad(LevelTooDeep)
  {
    hide *;
    if d.BVarD? || d.SortD? || d.ConstD? || d.LitD? {
      LeafRoundTrip(d, s, pos, count);
    } else {
      BranchRoundTrip(d, s, pos, count);
    }
  }

  lemma LeafRoundTrip(d: ExprData<nat>, s: seq<Byte>, pos: nat, count: nat)
    requires EntryFits(d) && count <= U64 && At(s, pos, PutEntry(d))
    requires d.BVarD? || d.SortD? || d.ConstD? || d.LitD?
    ensures ReadEntry(s, pos, count)
         == if EntryShallow(d) then Got(RebuildEntry(d), pos + |PutEntry(d)|) else Bad(LevelTooDeep)
  {
    hide At, Utf8, NatBytes, BytesNat, Height, LevelsShallow, RebuildLevel, RebuildLevels, LevelFits, ReadVarint,
         PutVarint,
         ReadLevel, PutLevel, ReadTwo, ReadConst, ReadBound, ReadLet, ReadProj, ReadPayload, ReadLevels, PutLevels;
    match d
    case BVarD(i) => AtHead(s, pos, 0, PutVarint(i)); VarintRoundTrip(i, s, pos + 1);
    case SortD(l) => AtHead(s, pos, 1, PutLevel(l)); LevelRoundTrip(l, s, pos + 1, 0);
    case ConstD(n, us) => ConstRoundTrip(n, us, s, pos);
    case LitD(NatLit(n)) => PayloadRoundTrip(8, NatBytes(n), s, pos); NatBytesRoundTrip(n);
    case LitD(StrLit(b)) => PayloadRoundTrip(9, b, s, pos);
  }

  lemma BranchRoundTrip(d: ExprData<nat>, s: seq<Byte>, pos: nat, count: nat)
    requires EntryFits(d) && count <= U64 && At(s, pos, PutEntry(d)) && forall c :: c in Children(d) ==> c < count
    requires !(d.BVarD? || d.SortD? || d.ConstD? || d.LitD?)
    ensures EntryShallow(d) && RebuildEntry(d) == d && ReadEntry(s, pos, count) == Got(d, pos + |PutEntry(d)|)
  {
    hide At, ReadVarint, PutVarint, ReadLevel, ReadTwo, ReadConst, ReadBound, ReadLet, ReadProj, ReadPayload;
    match d
    case AppD(f, x) =>
      assert f in Children(d) && x in Children(d);
      AtPair(s, pos, 3, PutVarint(f), PutVarint(x));
      TwoRoundTrip(f, x, s, pos + 1, count);
    case LamD(bi, ty, body) =>
      assert ty in Children(d) && body in Children(d);
      BoundRoundTrip(bi, ty, body, s, pos, count, true);
    case PiD(bi, ty, body) =>
      assert ty in Children(d) && body in Children(d);
      BoundRoundTrip(bi, ty, body, s, pos, count, false);
    case LetD(ty, val, body) =>
      assert ty in Children(d) && val in Children(d) && body in Children(d);
      LetRoundTrip(ty, val, body, s, pos, count);
    case ProjD(n, i, v) => assert v in Children(d); ProjRoundTrip(n, i, v, s, pos, count);
  }

  lemma ConstRoundTrip(n: nat, us: seq<L.Level>, s: seq<Byte>, pos: nat)
    requires n < U32 && LevelsFit(us) && At(s, pos, [2] + PutVarint(n) + PutVarint(|us|) + PutLevels(us))
    ensures pos < |s| && s[pos] == 2
    ensures ReadConst(s, pos + 1)
         == if LevelsShallow(us) then
           Got(ConstD(n, RebuildLevels(us)), pos + |[2] + PutVarint(n) + PutVarint(|us|) + PutLevels(us)|)
            else Bad(LevelTooDeep)
  {
    hide At, PutVarint, ReadVarint, PutLevels, ReadLevels, LevelsShallow, LevelFits;
    AtTriple(s, pos, 2, PutVarint(n), PutVarint(|us|), PutLevels(us));
    VarintRoundTrip(n, s, pos + 1);
    VarintRoundTrip(|us|, s, pos + 1 + |PutVarint(n)|);
    LevelsRoundTrip(us, s, pos + 1 + |PutVarint(n)| + |PutVarint(|us|)|);
  }

  lemma TwoRoundTrip(a: nat, b: nat, s: seq<Byte>, pos: nat, count: nat)
    requires a < count && b < count && count <= U64
    requires At(s, pos, PutVarint(a)) && At(s, pos + |PutVarint(a)|, PutVarint(b))
    ensures ReadTwo(s, pos, count) == Got((a, b), pos + |PutVarint(a)| + |PutVarint(b)|)
  {
    hide At, PutVarint, ReadRef;
    RefRoundTrip(a, s, pos, count);
    RefRoundTrip(b, s, pos + |PutVarint(a)|, count);
  }

  lemma BoundRoundTrip(bi: BinderInfo, ty: nat, body: nat, s: seq<Byte>, pos: nat, count: nat, isLam: bool)
    requires ty < count && body < count && count <= U64
    requires At(s, pos, [if isLam then 4 else 5, BinderByte(bi)] + PutVarint(ty) + PutVarint(body))
    ensures pos < |s| && s[pos] == if isLam then 4 else 5
    ensures ReadBound(s, pos + 1, count, isLam)
         == Got(if isLam then LamD(bi, ty, body) else PiD(bi, ty, body),
                pos + |[if isLam then 4 else 5, BinderByte(bi)] + PutVarint(ty) + PutVarint(body)|)
  {
    hide At, PutVarint, ReadVarint, ReadTwo;
    var tag: Byte := if isLam then 4 else 5;
    assert [tag, BinderByte(bi)] + PutVarint(ty) + PutVarint(body)
           == [tag] + [BinderByte(bi)] + PutVarint(ty) + PutVarint(body);
    AtTriple(s, pos, tag, [BinderByte(bi)], PutVarint(ty), PutVarint(body));
    AtHead(s, pos + 1, BinderByte(bi), []);
    TwoRoundTrip(ty, body, s, pos + 2, count);
  }

  lemma LetRoundTrip(ty: nat, val: nat, body: nat, s: seq<Byte>, pos: nat, count: nat)
    requires ty < count && val < count && body < count && count <= U64
    requires At(s, pos, [6] + PutVarint(ty) + PutVarint(val) + PutVarint(body))
    ensures pos < |s| && s[pos] == 6
    ensures ReadLet(s, pos + 1, count)
            == Got(LetD(ty, val, body), pos + |[6] + PutVarint(ty) + PutVarint(val) + PutVarint(body)|)
  {
    hide At, PutVarint, ReadVarint, ReadTwo;
    AtTriple(s, pos, 6, PutVarint(ty), PutVarint(val), PutVarint(body));
    TwoRoundTrip(ty, val, s, pos + 1, count);
    RefRoundTrip(body, s, pos + 1 + |PutVarint(ty)| + |PutVarint(val)|, count);
  }

  lemma ProjRoundTrip(n: nat, i: nat, v: nat, s: seq<Byte>, pos: nat, count: nat)
    requires n < U32 && i < U32 && v < count <= U64
    requires At(s, pos, [7] + PutVarint(n) + PutVarint(i) + PutVarint(v))
    ensures pos < |s| && s[pos] == 7
    ensures ReadProj(s, pos + 1, count) == Got(ProjD(n, i, v), pos + |[7] + PutVarint(n) + PutVarint(i) + PutVarint(v)|)
  {
    hide At, PutVarint, ReadVarint, ReadTwo, ReadRef;
    AtTriple(s, pos, 7, PutVarint(n), PutVarint(i), PutVarint(v));
    VarintRoundTrip(n, s, pos + 1);
    VarintRoundTrip(i, s, pos + 1 + |PutVarint(n)|);
    RefRoundTrip(v, s, pos + 1 + |PutVarint(n)| + |PutVarint(i)|, count);
  }

  lemma PayloadRoundTrip(tag: Byte, b: seq<Byte>, s: seq<Byte>, pos: nat)
    requires |b| < U64 && At(s, pos, [tag] + PutVarint(|b|) + b)
    ensures pos < |s| && s[pos] == tag
    ensures ReadPayload(s, pos + 1) == Got(b, pos + |[tag] + PutVarint(|b|) + b|)
  {
    hide PutVarint, ReadVarint;
    AtPair(s, pos, tag, PutVarint(|b|), b);
    VarintRoundTrip(|b|, s, pos + 1);
  }
}
