/** The byte sink and the byte cursor of the proof format, each step tied to the format's own functions. */
module Streams {
  import opened Terms
  import opened Nodes
  import opened Wire
  import opened Words
  import L = Levels

  class Output {
    var bytes: seq<Byte>

    constructor ()
      ensures bytes == []
    {
      bytes := [];
    }

    method Push(b: Byte)
      modifies this
      ensures bytes == old(bytes) + [b]
    {
      bytes := bytes + [b];
    }

    method Extend(s: seq<Byte>)
      modifies this
      ensures bytes == old(bytes) + s
    {
      bytes := bytes + s;
    }

    method Varint(v: nat)
      modifies this
      ensures bytes == old(bytes) + PutVarint(v)
    {
      var left := v;
      while true
        invariant bytes + PutVarint(left) == old(bytes) + PutVarint(v)
        decreases left
      {
        var b := left % 128;
        var rest := left / 128;
        if rest == 0 {
          Push(b);
          return;
        }
        Push(b + 128);
        left := rest;
      }
    }

    method Level(l: L.Level)
      modifies this
      ensures bytes == old(bytes) + PutLevel(l)
      decreases l, 1
    {
      hide PutVarint;
      match l
      case Zero => Push(0);
      case Succ(a) =>
        Push(1);
        Level(a);
      case Max(a, b) => LevelPair(2, a, b, l);
      case IMax(a, b) => LevelPair(3, a, b, l);
      case Param(n) =>
        Push(4);
        Varint(n);
    }

    method LevelPair(tag: Byte, a: L.Level, b: L.Level, ghost whole: L.Level)
      requires whole == L.Max(a, b) || whole == L.IMax(a, b)
      modifies this
      ensures bytes == old(bytes) + ([tag] + PutLevel(a) + PutLevel(b))
      decreases whole, 0
    {
      hide PutLevel;
      Push(tag);
      Level(a);
      Level(b);
    }

    method Levels(us: seq<L.Level>)
      modifies this
      ensures bytes == old(bytes) + PutLevels(us)
    {
      for k := 0 to |us|
        invariant bytes + PutLevels(us[k..]) == old(bytes) + PutLevels(us)
      {
        Level(us[k]);
        assert us[k..][1..] == us[k + 1..];
      }
    }

    method Entry(d: ExprData<nat>)
      modifies this
      ensures bytes == old(bytes) + PutEntry(d)
    {
      hide PutVarint, PutLevel, PutLevels, NatBytes, BinderByte;
      match d
      case BVarD(i) =>
        Push(0);
        Varint(i);
      case SortD(l) =>
        Push(1);
        Level(l);
      case ConstD(n, us) => Constant(n, us);
      case AppD(f, x) => Pair(3, f, x);
      case LamD(bi, ty, body) => Bound(4, bi, ty, body);
      case PiD(bi, ty, body) => Bound(5, bi, ty, body);
      case LetD(ty, val, body) => Three(6, ty, val, body);
      case ProjD(s, i, v) => Three(7, s, i, v);
      case LitD(NatLit(n)) => Payload(8, NatBytes(n));
      case LitD(StrLit(b)) => Payload(9, b);
    }

    method Constant(n: nat, us: seq<L.Level>)
      modifies this
      ensures bytes == old(bytes) + ([2] + PutVarint(n) + PutVarint(|us|) + PutLevels(us))
    {
      Push(2);
      Varint(n);
      Varint(|us|);
      Levels(us);
    }

    method Pair(tag: Byte, a: nat, b: nat)
      modifies this
      ensures bytes == old(bytes) + ([tag] + PutVarint(a) + PutVarint(b))
    {
      Push(tag);
      Varint(a);
      Varint(b);
    }

    method Three(tag: Byte, a: nat, b: nat, c: nat)
      modifies this
      ensures bytes == old(bytes) + ([tag] + PutVarint(a) + PutVarint(b) + PutVarint(c))
    {
      Push(tag);
      Varint(a);
      Varint(b);
      Varint(c);
    }

    method Bound(tag: Byte, bi: BinderInfo, ty: nat, body: nat)
      modifies this
      ensures bytes == old(bytes) + ([tag, BinderByte(bi)] + PutVarint(ty) + PutVarint(body))
    {
      Push(tag);
      Push(BinderByte(bi));
      Varint(ty);
      Varint(body);
    }

    method Payload(tag: Byte, b: seq<Byte>)
      modifies this
      ensures bytes == old(bytes) + ([tag] + PutVarint(|b|) + b)
    {
      Push(tag);
      Varint(|b|);
      Extend(b);
    }
  }

  datatype Read<+T> = Value(value: T) | Fail(error: ParseError)

  /** The cursor method answered what the parse says, and stopped where it stops. */
  predicate Moved<T(==)>(p: Parsed<T>, r: Read<T>, pos: nat) {
    match p
    case Got(v, next) => r == Value(v) && pos == next
    case Bad(e) => r == Fail(e)
  }

  function Prepended(us: seq<L.Level>, p: Parsed<seq<L.Level>>): Parsed<seq<L.Level>> {
    match p
    case Got(more, next) => Got(us + more, next)
    case Bad(e) => Bad(e)
  }

  lemma PrependedMore(us: seq<L.Level>, l: L.Level, p: Parsed<seq<L.Level>>)
    ensures Prepended(us + [l], p) == Prepended(us, if p.Bad? then p else Got([l] + p.value, p.next))
  {
    if p.Got? { assert us + [l] + p.value == us + ([l] + p.value); }
  }

  lemma PrependedNone(p: Parsed<seq<L.Level>>)
    ensures Prepended([], p) == p
  {
    if p.Got? { assert [] + p.value == p.value; }
  }

  class Reader {
    const bytes: seq<Byte>
    var pos: nat

    constructor (bytes: seq<Byte>)
      ensures this.bytes == bytes && pos == 0
    {
      this.bytes := bytes;
      pos := 0;
    }

    ghost predicate Valid()
      reads this
    {
      pos <= |bytes|
    }

    method Next() returns (r: Read<Byte>)
      requires Valid()
      modifies this
      ensures Valid()
      ensures if old(pos) == |bytes| then r == Fail(Truncated) && pos == old(pos)
              else r == Value(bytes[old(pos)]) && pos == old(pos) + 1
    {
      if pos == |bytes| { return Fail(Truncated); }
      r := Value(bytes[pos]);
      pos := pos + 1;
    }

    method Varint() returns (r: Read<nat>)
      requires Valid()
      modifies this
      ensures Valid() && Moved(ReadVarint(bytes, old(pos)), r, pos)
    {
      hide Or, Scaled;
      var v, shift := 0, 0;
      while true
        invariant Valid() && ReadVarintAt(bytes, pos, v, shift) == ReadVarint(bytes, old(pos))
        decreases |bytes| - pos
      {
        var b := Next();
        if b.Fail? { return Fail(b.error); }
        if shift >= 64 { return Fail(VarintTooLong); }
        v := Or(v, Scaled(b.value % 128, shift) % U64);
        if b.value < 128 { return Value(v); }
        shift := shift + 7;
      }
    }

    method Narrow() returns (r: Read<nat>)
      requires Valid()
      modifies this
      ensures Valid() && Moved(ReadU32(bytes, old(pos)), r, pos)
    {
      r := Varint();
      if r.Value? && r.value >= U32 { return Fail(Over32); }
    }

    method Slice(len: nat) returns (r: Read<seq<Byte>>)
      requires Valid()
      modifies this
      ensures Valid() && Moved(ReadSlice(bytes, old(pos), len), r, pos)
    {
      if pos + len > |bytes| { return Fail(Truncated); }
      r := Value(bytes[pos..pos + len]);
      pos := pos + len;
    }

    method Level(depth: nat) returns (r: Read<L.Level>)
      requires Valid()
      modifies this
      ensures Valid() && Moved(ReadLevel(bytes, old(pos), depth), r, pos)
      decreases |bytes| - pos
    {
      hide L.MkMax, L.MkIMax, ReadVarint;
      if depth > MAX_LEVEL_DEPTH { return Fail(LevelTooDeep); }
      var tag := Next();
      if tag.Fail? { return Fail(tag.error); }
      match tag.value
      case 0 => r := Value(L.Zero);
      case 1 =>
        var a := Level(depth + 1);
        if a.Fail? { return a; }
        r := Value(L.Succ(a.value));
      case 2 =>
        var a := Level(depth + 1);
        if a.Fail? { return a; }
        var b := Level(depth + 1);
        if b.Fail? { return b; }
        r := Value(L.MkMax(a.value, b.value));
      case 3 =>
        var a := Level(depth + 1);
        if a.Fail? { return a; }
        var b := Level(depth + 1);
        if b.Fail? { return b; }
        r := Value(L.MkIMax(a.value, b.value));
      case 4 =>
        var n := Narrow();
        if n.Fail? { return Fail(n.error); }
        r := Value(L.Param(n.value));
      case _ => r := Fail(UnknownLevelTag);
    }

    method Levels(k: nat) returns (r: Read<seq<L.Level>>)
      requires Valid()
      modifies this
      ensures Valid() && Moved(ReadLevels(bytes, old(pos), k), r, pos)
    {
      hide ReadLevel;
      var us: seq<L.Level> := [];
      var left := k;
      PrependedNone(ReadLevels(bytes, pos, k));
      while left > 0
        invariant Valid()
        invariant ReadLevels(bytes, old(pos), k) == Prepended(us, ReadLevels(bytes, pos, left))
      {
        ghost var before := us;
        var l := Level(0);
        if l.Fail? { return Fail(l.error); }
        us := us + [l.value];
        left := left - 1;
        PrependedMore(before, l.value, ReadLevels(bytes, pos, left));
      }
      assert us + [] == us;
      r := Value(us);
    }

    method Binder() returns (r: Read<BinderInfo>)
      requires Valid()
      modifies this
      ensures Valid() && Moved(ReadBinder(bytes, old(pos)), r, pos)
    {
      var b := Next();
      if b.Fail? { return Fail(b.error); }
      match b.value
      case 0 => r := Value(Default);
      case 1 => r := Value(Implicit);
      case 2 => r := Value(StrictImplicit);
      case 3 => r := Value(InstImplicit);
      case _ => r := Fail(UnknownBinder);
    }

    /** A reference to one of the `count` nodes already read. */
    method Ref(count: nat) returns (r: Read<nat>)
      requires Valid()
      modifies this
      ensures Valid() && Moved(ReadRef(bytes, old(pos), count), r, pos)
    {
      r := Varint();
      if r.Value? && r.value >= count { return Fail(LaterNode); }
    }

    method Two(count: nat) returns (r: Read<(nat, nat)>)
      requires Valid()
      modifies this
      ensures Valid() && Moved(ReadTwo(bytes, old(pos), count), r, pos)
    {
      hide ReadRef;
      var a := Ref(count);
      if a.Fail? { return Fail(a.error); }
      var b := Ref(count);
      if b.Fail? { return Fail(b.error); }
      r := Value((a.value, b.value));
    }

    method Constant() returns (r: Read<ExprData<nat>>)
      requires Valid()
      modifies this
      ensures Valid() && Moved(ReadConst(bytes, old(pos)), r, pos)
    {
      hide ReadVarint, ReadLevels;
      var n := Narrow();
      if n.Fail? { return Fail(n.error); }
      var k := Varint();
      if k.Fail? { return Fail(k.error); }
      var us := Levels(k.value);
      if us.Fail? { return Fail(us.error); }
      r := Value(ConstD(n.value, us.value));
    }

    method Bound(count: nat, isLam: bool) returns (r: Read<ExprData<nat>>)
      requires Valid()
      modifies this
      ensures Valid() && Moved(ReadBound(bytes, old(pos), count, isLam), r, pos)
    {
      hide ReadBinder, ReadTwo;
      var bi := Binder();
      if bi.Fail? { return Fail(bi.error); }
      var refs := Two(count);
      if refs.Fail? { return Fail(refs.error); }
      r := Value(if isLam then LamD(bi.value, refs.value.0, refs.value.1)
                 else PiD(bi.value, refs.value.0, refs.value.1));
    }

    method Let(count: nat) returns (r: Read<ExprData<nat>>)
      requires Valid()
      modifies this
      ensures Valid() && Moved(ReadLet(bytes, old(pos), count), r, pos)
    {
      hide ReadTwo, ReadRef;
      var refs := Two(count);
      if refs.Fail? { return Fail(refs.error); }
      var body := Ref(count);
      if body.Fail? { return Fail(body.error); }
      r := Value(LetD(refs.value.0, refs.value.1, body.value));
    }

    method Projection(count: nat) returns (r: Read<ExprData<nat>>)
      requires Valid()
      modifies this
      ensures Valid() && Moved(ReadProj(bytes, old(pos), count), r, pos)
    {
      hide ReadVarint, ReadRef;
      var n := Narrow();
      if n.Fail? { return Fail(n.error); }
      var i := Narrow();
      if i.Fail? { return Fail(i.error); }
      var v := Ref(count);
      if v.Fail? { return Fail(v.error); }
      r := Value(ProjD(n.value, i.value, v.value));
    }

    method Payload() returns (r: Read<seq<Byte>>)
      requires Valid()
      modifies this
      ensures Valid() && Moved(ReadPayload(bytes, old(pos)), r, pos)
    {
      hide ReadVarint;
      var len := Varint();
      if len.Fail? { return Fail(len.error); }
      r := Slice(len.value);
    }

    method Entry(count: nat) returns (r: Read<ExprData<nat>>)
      requires Valid()
      modifies this
      ensures Valid() && Moved(ReadEntry(bytes, old(pos), count), r, pos)
    {
      hide ReadVarint, ReadLevel, ReadConst, ReadTwo, ReadBound, ReadLet, ReadProj, ReadPayload, BytesNat, Utf8, Valid;
      var tag := Next();
      if tag.Fail? { return Fail(tag.error); }
      match tag.value
      case 0 =>
        var i := Narrow();
        r := if i.Fail? then Fail(i.error) else Value(BVarD(i.value));
      case 1 =>
        var l := Level(0);
        r := if l.Fail? then Fail(l.error) else Value(SortD(l.value));
      case 2 => r := Constant();
      case 3 =>
        var refs := Two(count);
        r := if refs.Fail? then Fail(refs.error) else Value(AppD(refs.value.0, refs.value.1));
      case 4 => r := Bound(count, true);
      case 5 => r := Bound(count, false);
      case 6 => r := Let(count);
      case 7 => r := Projection(count);
      case 8 =>
        var b := Payload();
        r := if b.Fail? then Fail(b.error) else Value(LitD(NatLit(BytesNat(b.value))));
      case 9 =>
        var b := Payload();
        if b.Fail? { return Fail(b.error); }
        if !Utf8(b.value, 0) { return Fail(NotUtf8); }
        r := Value(LitD(StrLit(b.value)));
      case _ => r := Fail(UnknownTag);
    }
  }
}
