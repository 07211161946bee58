/**
 The store of released proofs: an append-only log with an index by theorem name, a hash
 checked on every read, and a cache of what was read back. Any sequence of stores and
 loads is compared with a plain map of terms.
 */
module Proofs {
  import opened Terms
  import opened Nodes
  import opened ExprEngine
  import opened PostOrder
  import opened Wire
  import opened Streams
  import opened Codec
  import opened Reload

  /** Where a blob lies in the log. */
  datatype Slot = Slot(offset: nat, len: nat, hash: nat)

  datatype Answer<+T> = Missing | Found(value: T) | ReadFailed | WrongHash | Malformed(error: ParseError)

  /** The stored term comes back as the very node that was written, if and only if it can come back at all. */
  method ReadBack(engine: Engine, root: ExprNode) returns (r: Read<ExprNode>)
    requires engine.Valid() && Known(engine.nodes, root) && Formed(root) && Storable(root)
    requires Interned(engine.primary, engine.overflow, root)
    modifies engine
    ensures engine.Valid()
    ensures r == Value(root) <==> Shallow(root) && CanonTerm(Denote(root))
  {
    hide Engine.Valid, StoreOk, TableOk, TableGrows, Grows, Formed, Denote, Interned, CanonTerm, Shallow, Storable,
         Blob, Decode;
    engine.Consistent();
    var bytes := Encode(root, engine.nodes, engine.nextId);
    r := DecodeNode(engine, bytes);
    engine.Consistent();
    InternedGrows(old(engine.nodes), old(engine.nextId), old(engine.primary), old(engine.overflow), engine.primary,
                  engine.overflow, root);
    RoundTripExact(root);
    if r.Value? {
      InternedUnique(engine.nodes, engine.primary, engine.overflow, engine.hash, r.value, root);
    }
  }

  /** What a name answers on a given log and index, when nothing is cached. */
  function Fetch(file: seq<Byte>, index: map<nat, Slot>, hash: seq<Byte> -> nat, name: nat): Answer<Term> {
    if name !in index then Missing
    else
      var e := index[name];
      if e.offset + e.len > |file| then ReadFailed
      else if hash(file[e.offset..e.offset + e.len]) != e.hash then WrongHash
      else FromRead(Decode(file[e.offset..e.offset + e.len]))
  }

  function FromRead<T>(r: Read<T>): Answer<T> {
    match r
    case Value(v) => Found(v)
    case Fail(x) => Malformed(x)
  }

  ghost function Meant(a: Answer<ExprNode>): Answer<Term> {
    match a
    case Missing => Missing
    case Found(e) => Found(Denote(e))
    case ReadFailed => ReadFailed
    case WrongHash => WrongHash
    case Malformed(x) => Malformed(x)
  }

  class ProofStore {
    const hash: seq<Byte> -> nat
    var file: seq<Byte>
    var index: map<nat, Slot>
    var loaded: map<nat, ExprNode>
    var bytes: nat
    var loads: nat

    constructor (hash: seq<Byte> -> nat)
      ensures this.hash == hash && file == [] && index == map[] && loaded == map[] && bytes == 0 && loads == 0
    {
      this.hash := hash;
      file, index, loaded, bytes, loads := [], map[], map[], 0, 0;
    }

    /** Cached nodes belong to the engine. */
    ghost predicate CacheKnown(nodes: Store)
      reads this
    {
      forall n :: n in loaded ==> Known(nodes, loaded[n]) && Formed(loaded[n])
    }

    /** Appends the blob; a blob of 4 GB or more is left in the log unrecorded. */
    method Store(engine: Engine, name: nat, value: ExprNode) returns (ok: bool)
      requires engine.Valid() && Known(engine.nodes, value) && Formed(value)
      modifies this`file, this`index, this`bytes
      ensures ok <==> |Blob(value)| < 0x1_0000_0000
      ensures file == old(file) + Blob(value)
      ensures index == if ok then old(index)[name := Slot(|old(file)|, |Blob(value)|, hash(Blob(value)))]
              else old(index)
      ensures bytes == old(bytes) + if ok then |Blob(value)| else 0
    {
      hide Engine.Valid, Formed, Blob;
      engine.Consistent();
      var blob := Encode(value, engine.nodes, engine.nextId);
      var code := hash(blob);
      var offset := |file|;
      file := file + blob;
      if |blob| >= U32 { return false; }
      index := index[name := Slot(offset, |blob|, code)];
      bytes := bytes + |blob|;
      ok := true;
    }

    /** A cached name answers from memory whatever the log holds; any other goes through the hash and the decoder. */
    method Load(engine: Engine, name: nat) returns (r: Answer<ExprNode>)
      requires engine.Valid() && CacheKnown(engine.nodes) && this != engine as object
      modifies this`loaded, this`loads, engine
      ensures engine.Valid() && CacheKnown(engine.nodes) && Grows(old(engine.nodes), engine.nodes)
      ensures name in old(loaded) ==> r == Found(old(loaded)[name]) && loaded == old(loaded) && loads == old(loads)
      ensures name !in old(loaded) ==> Meant(r) == Fetch(file, index, hash, name)
      ensures name !in old(loaded) && name !in index ==> r == Missing
      ensures name !in old(loaded) && name in index ==>
                var e := index[name];
                (r == ReadFailed <==> e.offset + e.len > |file|)
                && (e.offset + e.len <= |file| ==>
                    var blob := file[e.offset..e.offset + e.len];
                    (r == WrongHash <==> hash(blob) != e.hash)
                    && (r.Found? ==> Decode(blob) == Value(Denote(r.value)))
                    && forall x :: r == Malformed(x) ==> Decode(blob) == Fail(x))
      ensures name !in old(loaded) ==>
                if r.Found? then loaded == old(loaded)[name := r.value] && loads == old(loads) + 1
                else loaded == old(loaded) && loads == old(loads)
    {
      hide Engine.Valid, Formed, Denote, TableGrows, Interned, Decode;
      if name in loaded { return Found(loaded[name]); }
      if name !in index { return Missing; }
      var e := index[name];
      if e.offset + e.len > |file| { return ReadFailed; }
      var blob := file[e.offset..e.offset + e.len];
      if hash(blob) != e.hash { return WrongHash; }
      var d := DecodeNode(engine, blob);
      if d.Fail? { return Malformed(d.error); }
      loads := loads + 1;
      loaded := loaded[name := d.value];
      r := Found(d.value);
    }
  }

  // ------------------------------------------------------------ whole histories

  datatype Op = Put(name: nat, root: nat) | Get(name: nat)

  /** The latest recorded proof per name, and what each name answered first. */
  datatype Shelf = Shelf(latest: map<nat, Read<Term>>, first: map<nat, Term>)

  /** What reading `root` back yields. */
  ghost function Expected(root: ExprNode): Read<Term> {
    if Shallow(root) then Value(RebuildTerm(Denote(root))) else Fail(LevelTooDeep)
  }

  ghost function RefAnswer(s: Shelf, name: nat): Answer<Term> {
    if name in s.first then Found(s.first[name])
    else if name in s.latest then FromRead(s.latest[name])
    else Missing
  }

  ghost function RefOp(s: Shelf, pool: seq<ExprNode>, op: Op): Shelf
    requires forall k :: 0 <= k < |pool| ==> Formed(pool[k])
  {
    match op
    case Put(name, root) =>
      if root < |pool| && |Blob(pool[root])| < U32 then s.(latest := s.latest[name := Expected(pool[root])]) else s
    case Get(name) =>
      var a := RefAnswer(s, name);
      if a.Found? then s.(first := s.first[name := a.value]) else s
  }

  ghost function RefAnswers(s: Shelf, pool: seq<ExprNode>, ops: seq<Op>): seq<Answer<Term>>
    requires forall k :: 0 <= k < |pool| ==> Formed(pool[k])
    decreases |ops|
  {
    if ops == [] then []
    else (if ops[0].Get? then [RefAnswer(s, ops[0].name)] else []) + RefAnswers(RefOp(s, pool, ops[0]), pool, ops[1..])
  }

  /** The log and index answer like the latest proofs, the cache like the first answers. */
  ghost predicate Mirrors(file: seq<Byte>, index: map<nat, Slot>, loaded: map<nat, ExprNode>, hash: seq<Byte> -> nat,
                          s: Shelf)
  {
    (forall n :: n in index <==> n in s.latest)
    && (forall n :: n in loaded <==> n in s.first)
    && (forall n :: n in index ==> Fetch(file, index, hash, n) == FromRead(s.latest[n]))
    && forall n :: n in loaded ==> Denote(loaded[n]) == s.first[n]
  }

  /** Appending never disturbs an earlier blob. */
  lemma FetchAppended(file: seq<Byte>, more: seq<Byte>, index: map<nat, Slot>, hash: seq<Byte> -> nat, name: nat)
    requires Fetch(file, index, hash, name) != ReadFailed
    ensures Fetch(file + more, index, hash, name) == Fetch(file, index, hash, name)
  {
    hide Decode;
    if name in index {
      var e := index[name];
      assert (file + more)[e.offset..e.offset + e.len] == file[e.offset..e.offset + e.len];
    }
  }

  lemma PutMirrors(file: seq<Byte>, index: map<nat, Slot>, loaded: map<nat, ExprNode>, hash: seq<Byte> -> nat, s: Shelf,
                   name: nat, root: ExprNode)
    requires Mirrors(file, index, loaded, hash, s) && Formed(root) && Storable(root)
    ensures Mirrors(file + Blob(root), index, loaded, hash, s)
    ensures Mirrors(file + Blob(root), index[name := Slot(|file|, |Blob(root)|, hash(Blob(root)))], loaded, hash,
                    s.(latest := s.latest[name := Expected(root)]))
  {
    hide Formed, Storable, Blob, Decode, Expected, Denote, Fetch;
    var blob := Blob(root);
    forall n | n in index ensures Fetch(file + blob, index, hash, n) == FromRead(s.latest[n]) {
      FetchAppended(file, blob, index, hash, n);
    }
    PutExpected(root);
    FetchNew(file, blob, index, hash, name);
  }

  /** The blob just appended is what its name fetches; other names are not concerned. */
  lemma FetchNew(file: seq<Byte>, blob: seq<Byte>, index: map<nat, Slot>, hash: seq<Byte> -> nat, name: nat)
    ensures var after := index[name := Slot(|file|, |blob|, hash(blob))];
            Fetch(file + blob, after, hash, name) == FromRead(Decode(blob))
            && forall n :: n in index && n != name ==>
               Fetch(file + blob, after, hash, n) == Fetch(file + blob, index, hash, n)
  {
    hide Decode;
    assert (file + blob)[|file|..|file| + |blob|] == blob;
  }

  lemma PutExpected(root: ExprNode)
    requires Formed(root) && Storable(root)
    ensures Decode(Blob(root)) == Expected(root)
  {
    hide Formed, Storable, Blob, Decode, Denote, RebuildTerm, Shallow;
    RoundTrip(root);
  }

  lemma GetMirrors(file: seq<Byte>, index: map<nat, Slot>, loaded: map<nat, ExprNode>, hash: seq<Byte> -> nat, s: Shelf,
                   name: nat, r: Answer<ExprNode>, loaded': map<nat, ExprNode>)
    requires Mirrors(file, index, loaded, hash, s)
    requires if name in loaded then r == Found(loaded[name]) && loaded' == loaded
             else Meant(r) == Fetch(file, index, hash, name) && loaded' == if r.Found? then loaded[name := r.value]
               else loaded
    ensures Meant(r) == RefAnswer(s, name)
    ensures Mirrors(file, index, loaded', hash, RefOp(s, [], Get(name)))
  {
    hide Fetch, Denote;
    FetchMissing(file, index, hash, name);
  }

  lemma FetchMissing(file: seq<Byte>, index: map<nat, Slot>, hash: seq<Byte> -> nat, name: nat)
    ensures name !in index ==> Fetch(file, index, hash, name) == Missing
  {}

  ghost predicate PoolStorable(nodes: Store, pool: seq<ExprNode>) {
    forall k :: 0 <= k < |pool| ==> Known(nodes, pool[k]) && Formed(pool[k]) && Storable(pool[k])
  }

  ghost function AllMeant(answers: seq<Answer<ExprNode>>): (r: seq<Answer<Term>>)
    ensures |r| == |answers| && forall k :: 0 <= k < |r| ==> r[k] == Meant(answers[k])
  {
    seq(|answers|, k requires 0 <= k < |answers| => Meant(answers[k]))
  }

  /** Any sequence of stores and loads on a fresh store answers as the plain maps do, for any hash function. */
  method Run(engine: Engine, hash: seq<Byte> -> nat, pool: seq<ExprNode>, ops: seq<Op>)
    returns (answers: seq<Answer<ExprNode>>)
    requires engine.Valid() && PoolStorable(engine.nodes, pool)
    modifies engine
    ensures engine.Valid()
    ensures AllMeant(answers) == RefAnswers(Shelf(map[], map[]), pool, ops)
  {
    hide Engine.Valid, Formed, Denote, Mirrors, RefOp, RefAnswer, Storable, Blob, Fetch;
    var store := new ProofStore(hash);
    answers := [];
    ghost var s := Shelf(map[], map[]);
    NothingMirrors(hash);
    for k := 0 to |ops|
      invariant engine.Valid() && PoolStorable(engine.nodes, pool) && store.CacheKnown(engine.nodes)
      invariant store.hash == hash && Mirrors(store.file, store.index, store.loaded, hash, s)
      invariant AllMeant(answers) + RefAnswers(s, pool, ops[k..]) == RefAnswers(Shelf(map[], map[]), pool, ops)
    {
      ghost var before := answers;
      assert ops[k..][1..] == ops[k + 1..];
      match ops[k] {
        case Put(name, root) => RunPut(engine, store, pool, name, root, s);
        case Get(name) =>
          var r := RunGet(engine, store, pool, name, s);
          answers := answers + [r];
          assert AllMeant(answers) == AllMeant(before) + [RefAnswer(s, name)];
      }
      s := RefOp(s, pool, ops[k]);
    }
  }

  lemma NothingMirrors(hash: seq<Byte> -> nat)
    ensures Mirrors([], map[], map[], hash, Shelf(map[], map[]))
  {}

  method RunPut(engine: Engine, store: ProofStore, pool: seq<ExprNode>, name: nat, root: nat, ghost s: Shelf)
    requires engine.Valid() && PoolStorable(engine.nodes, pool) && store.CacheKnown(engine.nodes)
    requires Mirrors(store.file, store.index, store.loaded, store.hash, s)
    modifies store
    ensures engine.Valid() && PoolStorable(engine.nodes, pool) && store.CacheKnown(engine.nodes)
    ensures Mirrors(store.file, store.index, store.loaded, store.hash, RefOp(s, pool, Put(name, root)))
  {
    hide Engine.Valid, Formed, Denote, Mirrors, Storable, Blob, Expected;
    if root < |pool| {
      PutMirrors(store.file, store.index, store.loaded, store.hash, s, name, pool[root]);
      var ok := store.Store(engine, name, pool[root]);
    }
  }

  method RunGet(engine: Engine, store: ProofStore, pool: seq<ExprNode>, name: nat, ghost s: Shelf)
    returns (r: Answer<ExprNode>)
    requires engine.Valid() && PoolStorable(engine.nodes, pool) && store.CacheKnown(engine.nodes)
    requires Mirrors(store.file, store.index, store.loaded, store.hash, s)
    modifies store, engine
    ensures engine.Valid() && PoolStorable(engine.nodes, pool) && store.CacheKnown(engine.nodes)
    ensures Meant(r) == RefAnswer(s, name)
    ensures Mirrors(store.file, store.index, store.loaded, store.hash, RefOp(s, pool, Get(name)))
  {
    hide Engine.Valid, Formed, Denote, Mirrors, Storable, Fetch, RefAnswer, Meant;
    r := store.Load(engine, name);
    GetMirrors(store.file, store.index, old(store.loaded), store.hash, s, name, r, store.loaded);
  }

  ghost function RefState(s: Shelf, pool: seq<ExprNode>, ops: seq<Op>): Shelf
    requires forall k :: 0 <= k < |pool| ==> Formed(pool[k])
    decreases |ops|
  {
    if ops == [] then s else RefState(RefOp(s, pool, ops[0]), pool, ops[1..])
  }

  /** Operations that do not put a name leave what is stored under it. */
  lemma {:induction false} LatestKept(s: Shelf, pool: seq<ExprNode>, ops: seq<Op>, name: nat)
    requires (forall k :: 0 <= k < |pool| ==> Formed(pool[k])) && name in s.latest
    requires forall k :: 0 <= k < |ops| && ops[k].Put? ==> ops[k].name != name
    ensures var t := RefState(s, pool, ops);
            name in t.latest && t.latest[name] == s.latest[name]
    decreases |ops|
  {
    hide Formed, Blob, Expected, RefAnswer;
    if ops != [] {
      assert forall k :: 0 <= k < |ops[1..]| ==> ops[1..][k] == ops[k + 1];
      LatestKept(RefOp(s, pool, ops[0]), pool, ops[1..], name);
    }
  }

  /** A name put and not put again answers that put, if and only if it had not been read before or had answered
      the very same term then. */
  lemma LatestUnlessRead(s: Shelf, pool: seq<ExprNode>, ops: seq<Op>, name: nat)
    requires (forall k :: 0 <= k < |pool| ==> Formed(pool[k])) && name in s.latest
    requires forall k :: 0 <= k < |ops| && ops[k].Put? ==> ops[k].name != name
    ensures var t := RefState(s, pool, ops);
            name in t.latest && t.latest[name] == s.latest[name]
            && (RefAnswer(t, name) == FromRead(t.latest[name])
                <==> name !in s.first || s.latest[name] == Value(s.first[name]))
  {
    hide Formed, RefState;
    LatestKept(s, pool, ops, name);
    AnswerKept(s, pool, ops, name);
  }

  /** A name that is not put again keeps its answer. */
  lemma {:induction false} AnswerKept(s: Shelf, pool: seq<ExprNode>, ops: seq<Op>, name: nat)
    requires (forall k :: 0 <= k < |pool| ==> Formed(pool[k])) && name in s.latest
    requires forall k :: 0 <= k < |ops| && ops[k].Put? ==> ops[k].name != name
    ensures RefAnswer(RefState(s, pool, ops), name) == RefAnswer(s, name)
    decreases |ops|
  {
    hide Formed, Blob, Expected;
    if ops != [] {
      assert forall k :: 0 <= k < |ops[1..]| ==> ops[1..][k] == ops[k + 1];
      AnswerKept(RefOp(s, pool, ops[0]), pool, ops[1..], name);
    }
  }

  /** Once a name has answered a term it answers that term for ever, whatever is stored under it later. */
  lemma {:induction false} FirstAnswerStays(s: Shelf, pool: seq<ExprNode>, ops: seq<Op>, name: nat)
    requires (forall k :: 0 <= k < |pool| ==> Formed(pool[k])) && name in s.first
    ensures RefAnswer(RefState(s, pool, ops), name) == Found(s.first[name])
    decreases |ops|
  {
    hide Formed, Blob, Expected;
    if ops != [] { FirstAnswerStays(RefOp(s, pool, ops[0]), pool, ops[1..], name); }
  }

  /** Put, get, put, get: the second proof is stored and not seen. */
  lemma SecondPutUnseen(name: nat, a: ExprNode, b: ExprNode)
    requires Formed(a) && Formed(b) && Shallow(a) && Shallow(b) && |Blob(a)| < U32 && |Blob(b)| < U32
    ensures var pool, ops, first := [a, b], [Put(name, 0), Get(name), Put(name, 1), Get(name)], RebuildTerm(Denote(a));
            RefAnswers(Shelf(map[], map[]), pool, ops) == [Found(first), Found(first)]
            && (var last := RefState(Shelf(map[], map[]), pool, ops);
                name in last.latest && last.latest[name] == Value(RebuildTerm(Denote(b))))
  {
    hide Formed, Blob, Shallow, RebuildTerm, Denote;
    var pool := [a, b];
    var p, g, q := Put(name, 0), Get(name), Put(name, 1);
    var s0: Shelf := Shelf(map[], map[]);
    var s1 := RefOp(s0, pool, p);
    var s2 := RefOp(s1, pool, g);
    var s3 := RefOp(s2, pool, q);
    assert [p, g, q, g][1..] == [g, q, g] && [g, q, g][1..] == [q, g] && [q, g][1..] == [g] && [g][1..] == [];
    assert RefAnswers(s3, pool, [g]) == [RefAnswer(s3, name)] + RefAnswers(RefOp(s3, pool, g), pool, []);
    assert RefAnswers(s2, pool, [q, g]) == [] + RefAnswers(s3, pool, [g]);
    assert RefAnswers(s1, pool, [g, q, g]) == [RefAnswer(s1, name)] + RefAnswers(s2, pool, [q, g]);
    assert RefState(s2, pool, [q, g]) == RefState(s3, pool, [g]) == RefState(RefOp(s3, pool, g), pool, []);
    assert RefState(s1, pool, [g, q, g]) == RefState(s2, pool, [q, g]);
  }
}
