/**
 The expression engine: the hash-cons table with its overflow buckets, never-reused
 identities, and the memoised shift, instantiation and universe instantiation. Each
 operation returns a node standing for what the plain recursive function says, from any
 valid state, and leaves a valid state: whatever calls, evictions and clears came before.
 */
module ExprEngine {
  import opened Terms
  import opened Nodes
  import opened Tables
  import O = Occurrences
  import L = Levels

  type Store = map<nat, ExprNode>
  type Key = seq<(nat, L.Level)>

  const MEMO_LIMIT: nat := 50_000

  // ----------------------------------------------------------- the node store

  ghost predicate Known(nodes: Store, n: ExprNode) { n.identity in nodes && nodes[n.identity] == n }

  ghost predicate KnownData(nodes: Store, d: ExprData<ExprNode>) { forall c :: c in Children(d) ==> Known(nodes, c) }

  ghost predicate KnownAll(nodes: Store, ns: seq<ExprNode>) { forall k :: 0 <= k < |ns| ==> Known(nodes, ns[k]) }

  /** The nodes that may still be referenced, each under its identity; identities stay below the counter. */
  ghost predicate StoreOk(nodes: Store, next: nat) {
    forall id :: id in nodes ==>
      nodes[id].identity == id && id < next && Formed(nodes[id]) && KnownData(nodes, nodes[id].data)
  }

  ghost predicate Grows(before: Store, after: Store) {
    forall id :: id in before ==> id in after && after[id] == before[id]
  }

  // ------------------------------------------------------ the hash-cons table

  ghost predicate InTable(primary: map<nat, ExprNode>, overflow: map<nat, seq<ExprNode>>, n: ExprNode) {
    (exists h :: h in primary && primary[h] == n) || (exists h :: h in overflow && n in overflow[h])
  }

  /** Entries are known, filed under their own hash, and no two have the same data. */
  ghost predicate TableOk(nodes: Store, primary: map<nat, ExprNode>, overflow: map<nat, seq<ExprNode>>,
                          hash: ExprData<ExprNode> -> nat)
  {
    (forall h :: h in primary ==> Known(nodes, primary[h]) && hash(primary[h].data) == h)
    && (forall h, n :: h in overflow && n in overflow[h] ==> Known(nodes, n) && hash(n.data) == h)
    && (forall h, n :: h in primary && h in overflow && n in overflow[h] ==> n.data != primary[h].data)
    && (forall h, i, j :: h in overflow && 0 <= i < j < |overflow[h]| ==> overflow[h][i].data != overflow[h][j].data)
  }

  lemma TableUnique(nodes: Store, primary: map<nat, ExprNode>, overflow: map<nat, seq<ExprNode>>,
                    hash: ExprData<ExprNode> -> nat,
                    a: ExprNode, b: ExprNode)
    requires TableOk(nodes, primary, overflow, hash)
    requires InTable(primary, overflow, a) && InTable(primary, overflow, b) && a.data == b.data
    ensures a == b
  {
    var h := hash(a.data);
    if !(h in primary && primary[h] == a) && !(h in primary && primary[h] == b) {
      assert h in overflow && a in overflow[h] && b in overflow[h];
      var i :| 0 <= i < |overflow[h]| && overflow[h][i] == a;
      var j :| 0 <= j < |overflow[h]| && overflow[h][j] == b;
      assert i == j;
    }
  }

  /** The node and everything below it is in the table. */
  ghost predicate Interned(primary: map<nat, ExprNode>, overflow: map<nat, seq<ExprNode>>, n: ExprNode)
    requires Formed(n)
    decreases n.identity
  {
    InTable(primary, overflow, n) && forall c :: c in Children(n.data) ==> Interned(primary, overflow, c)
  }

  /** Between clears, interned nodes are the same node if and only if they are the same term. */
  lemma {:induction false} InternedUnique(nodes: Store, primary: map<nat, ExprNode>, overflow: map<nat, seq<ExprNode>>,
                                          hash: ExprData<ExprNode> -> nat, a: ExprNode, b: ExprNode)
    requires TableOk(nodes, primary, overflow, hash) && Formed(a) && Formed(b)
    requires Interned(primary, overflow, a) && Interned(primary, overflow, b)
    ensures a == b <==> Denote(a) == Denote(b)
    decreases a.identity
  {
    hide TableOk, InTable;
    if Denote(a) == Denote(b) {
      FormedChildren(a);
      FormedChildren(b);
      match (a.data, b.data) {
        case (AppD(f, x), AppD(g, y)) =>
          SameChild(nodes, primary, overflow, hash, a, b, f, g);
          SameChild(nodes, primary, overflow, hash, a, b, x, y);
        case (LamD(_, t, x), LamD(_, u, y)) =>
          SameChild(nodes, primary, overflow, hash, a, b, t, u);
          SameChild(nodes, primary, overflow, hash, a, b, x, y);
        case (PiD(_, t, x), PiD(_, u, y)) =>
          SameChild(nodes, primary, overflow, hash, a, b, t, u);
          SameChild(nodes, primary, overflow, hash, a, b, x, y);
        case (LetD(t, v, x), LetD(u, w, y)) =>
          SameChild(nodes, primary, overflow, hash, a, b, t, u);
          SameChild(nodes, primary, overflow, hash, a, b, v, w);
          SameChild(nodes, primary, overflow, hash, a, b, x, y);
        case (ProjD(_, _, v), ProjD(_, _, w)) => SameChild(nodes, primary, overflow, hash, a, b, v, w);
        case _ =>
      }
      TableUnique(nodes, primary, overflow, hash, a, b);
    }
  }

  lemma {:induction false} SameChild(nodes: Store, primary: map<nat, ExprNode>, overflow: map<nat, seq<ExprNode>>,
                                     hash: ExprData<ExprNode> -> nat, a: ExprNode, b: ExprNode, c: ExprNode,
                                       d: ExprNode)
    requires TableOk(nodes, primary, overflow, hash) && Formed(a) && Formed(b)
    requires Interned(primary, overflow, a) && Interned(primary, overflow, b)
    requires c in Children(a.data) && d in Children(b.data)
    requires Formed(c) && Formed(d) && c.identity < a.identity && Denote(c) == Denote(d)
    ensures c == d
    decreases a.identity, 0
  {
    InternedUnique(nodes, primary, overflow, hash, c, d);
  }

  ghost predicate HasData(nodes: Store, primary: map<nat, ExprNode>, overflow: map<nat, seq<ExprNode>>,
                          d: ExprData<ExprNode>)
  {
    exists id :: id in nodes && nodes[id].data == d && InTable(primary, overflow, nodes[id])
  }

  ghost predicate TableGrows(nodes: Store, primary: map<nat, ExprNode>, overflow: map<nat, seq<ExprNode>>,
                             primary': map<nat, ExprNode>, overflow': map<nat, seq<ExprNode>>) {
    forall id :: id in nodes && InTable(primary, overflow, nodes[id]) ==> InTable(primary', overflow', nodes[id])
  }

  /** No node still in use has been dropped from the table. */
  ghost predicate AllFiled(nodes: Store, primary: map<nat, ExprNode>, overflow: map<nat, seq<ExprNode>>) {
    forall id :: id in nodes ==> InTable(primary, overflow, nodes[id])
  }

  /** Filing a new node keeps everything filed. */
  lemma FiledMore(before: Store, after: Store, primary: map<nat, ExprNode>, overflow: map<nat, seq<ExprNode>>,
                  primary': map<nat, ExprNode>, overflow': map<nat, seq<ExprNode>>, e: ExprNode)
    requires after == before[e.identity := e] && InTable(primary', overflow', e)
    requires TableGrows(before, primary, overflow, primary', overflow')
    ensures AllFiled(before, primary, overflow) ==> AllFiled(after, primary', overflow')
  {
    hide InTable;
  }

  lemma {:induction false} FiledInterned(nodes: Store, next: nat, primary: map<nat, ExprNode>, overflow: map<nat,
                                         seq<ExprNode>>, n: ExprNode)
    requires StoreOk(nodes, next) && AllFiled(nodes, primary, overflow) && Known(nodes, n) && Formed(n)
    ensures Interned(primary, overflow, n)
    decreases n.identity
  {
    assert InTable(primary, overflow, nodes[n.identity]);
    forall c | c in Children(n.data) ensures Interned(primary, overflow, c) {
      FiledInterned(nodes, next, primary, overflow, c);
    }
  }

  lemma NoneFiled(nodes: Store, primary: map<nat, ExprNode>, overflow: map<nat, seq<ExprNode>>,
                  hash: ExprData<ExprNode> -> nat,
                  d: ExprData<ExprNode>)
    requires TableOk(nodes, primary, overflow, hash)
    requires hash(d) in primary ==> primary[hash(d)].data != d
    requires hash(d) in overflow ==> forall n :: n in overflow[hash(d)] ==> n.data != d
    ensures !HasData(nodes, primary, overflow, d)
  {}

  lemma AddPrimary(nodes: Store, primary: map<nat, ExprNode>, overflow: map<nat, seq<ExprNode>>,
                   hash: ExprData<ExprNode> -> nat, e: ExprNode)
    requires TableOk(nodes, primary, overflow, hash) && Known(nodes, e) && hash(e.data) !in primary
    requires hash(e.data) in overflow ==> forall n :: n in overflow[hash(e.data)] ==> n.data != e.data
    ensures TableOk(nodes, primary[hash(e.data) := e], overflow, hash)
    ensures InTable(primary[hash(e.data) := e], overflow, e)
    ensures forall id :: id in nodes && InTable(primary, overflow, nodes[id]) ==>
              InTable(primary[hash(e.data) := e], overflow, nodes[id])
  {
    var p := primary[hash(e.data) := e];
    assert p[hash(e.data)] == e;
    forall id | id in nodes && InTable(primary, overflow, nodes[id]) ensures InTable(p, overflow, nodes[id]) {
      if h :| h in primary && primary[h] == nodes[id] { assert h in p && p[h] == nodes[id]; }
    }
  }

  lemma AddOverflow(nodes: Store, primary: map<nat, ExprNode>, overflow: map<nat, seq<ExprNode>>,
                    hash: ExprData<ExprNode> -> nat, e: ExprNode)
    requires TableOk(nodes, primary, overflow, hash) && Known(nodes, e)
    requires hash(e.data) in primary && primary[hash(e.data)].data != e.data
    requires hash(e.data) in overflow ==> forall n :: n in overflow[hash(e.data)] ==> n.data != e.data
    ensures var h := hash(e.data);
            var o := overflow[h := (if h in overflow then overflow[h] else []) + [e]];
            TableOk(nodes, primary, o, hash) && InTable(primary, o, e)
            && forall id :: id in nodes && InTable(primary, overflow, nodes[id]) ==> InTable(primary, o, nodes[id])
  {
    var h := hash(e.data);
    var bucket: seq<ExprNode> := if h in overflow then overflow[h] else [];
    var o: map<nat, seq<ExprNode>> := overflow[h := bucket + [e]];
    assert e in o[h];
    forall k, i, j | k in o && 0 <= i < j < |o[k]| ensures o[k][i].data != o[k][j].data {
      if k == h && j == |bucket| { assert o[k][i] == bucket[i] && bucket[i] in overflow[h]; }
    }
    forall id | id in nodes && InTable(primary, overflow, nodes[id]) ensures InTable(primary, o, nodes[id]) {
      if k :| k in overflow && nodes[id] in overflow[k] { assert k in o && nodes[id] in o[k]; }
    }
  }

  // ------------------------------------------------------- what is still held

  /** The node with this identity is `e` or somewhere below it. */
  predicate Reaches(e: ExprNode, id: nat)
    requires Formed(e)
    decreases e.identity
  {
    e.identity == id || exists c :: c in Children(e.data) && Reaches(c, id)
  }

  predicate Held(holders: set<ExprNode>, id: nat)
    requires forall e :: e in holders ==> Formed(e)
  {
    exists e :: e in holders && Reaches(e, id)
  }

  function HeldOnly(bucket: seq<ExprNode>, holders: set<ExprNode>): (r: seq<ExprNode>)
    requires forall e :: e in holders ==> Formed(e)
    ensures forall n :: n in r ==> n in bucket && Held(holders, n.identity)
    ensures forall n :: n in bucket && Held(holders, n.identity) ==> n in r
  {
    if bucket == [] then []
    else
      var rest := HeldOnly(bucket[1..], holders);
      assert bucket == [bucket[0]] + bucket[1..];
      if Held(holders, bucket[0].identity) then [bucket[0]] + rest else rest
  }

  ghost predicate DistinctData(bucket: seq<ExprNode>) {
    forall i, j :: 0 <= i < j < |bucket| ==> bucket[i].data != bucket[j].data
  }

  lemma {:induction false} HeldDistinct(bucket: seq<ExprNode>, holders: set<ExprNode>)
    requires DistinctData(bucket) && forall e :: e in holders ==> Formed(e)
    ensures DistinctData(HeldOnly(bucket, holders))
  {
    hide Held, Formed;
    if bucket != [] {
      var rest := HeldOnly(bucket[1..], holders);
      assert forall k :: 0 <= k < |bucket[1..]| ==> bucket[1..][k] == bucket[k + 1];
      HeldDistinct(bucket[1..], holders);
      forall k | 0 <= k < |rest| ensures rest[k].data != bucket[0].data {
        assert rest[k] in rest;
        var j :| 0 <= j < |bucket[1..]| && bucket[1..][j] == rest[k];
      }
    }
  }

  ghost function HeldNodes(nodes: Store, holders: set<ExprNode>): Store
    requires forall e :: e in holders ==> Formed(e)
  {
    map id | id in nodes && Held(holders, id) :: nodes[id]
  }

  /** What is below a held node is held. */
  lemma {:induction false} ReachesChild(nodes: Store, next: nat, e: ExprNode, id: nat, c: ExprNode)
    requires StoreOk(nodes, next) && Known(nodes, e) && Formed(e) && id in nodes && Reaches(e, id)
    requires c in Children(nodes[id].data)
    ensures Reaches(e, c.identity)
    decreases e.identity
  {
    if e.identity == id {
      assert c in Children(e.data) && Reaches(c, c.identity);
    } else {
      var d :| d in Children(e.data) && Reaches(d, id);
      ReachesChild(nodes, next, d, id, c);
    }
  }

  lemma HeldStore(nodes: Store, next: nat, holders: set<ExprNode>)
    requires StoreOk(nodes, next) && forall e :: e in holders ==> Known(nodes, e) && Formed(e)
    ensures StoreOk(HeldNodes(nodes, holders), next)
    ensures forall e :: e in holders ==> Known(HeldNodes(nodes, holders), e)
  {
    var after := HeldNodes(nodes, holders);
    hide Formed;
    forall id, c | id in after && c in Children(after[id].data) ensures Known(after, c) {
      var e :| e in holders && Reaches(e, id);
      ReachesChild(nodes, next, e, id, c);
      assert Held(holders, c.identity);
    }
    forall e | e in holders ensures Known(after, e) { assert Reaches(e, e.identity); }
  }

  function HeldPrimary(primary: map<nat, ExprNode>, holders: set<ExprNode>): map<nat, ExprNode>
    requires forall e :: e in holders ==> Formed(e)
  {
    map h | h in primary && Held(holders, primary[h].identity) :: primary[h]
  }

  function HeldOverflow(overflow: map<nat, seq<ExprNode>>, holders: set<ExprNode>): map<nat, seq<ExprNode>>
    requires forall e :: e in holders ==> Formed(e)
  {
    map h | h in overflow :: HeldOnly(overflow[h], holders)
  }

  /** The table without the entries of nodes nobody holds. */
  lemma HeldTable(nodes: Store, primary: map<nat, ExprNode>, overflow: map<nat, seq<ExprNode>>,
                  hash: ExprData<ExprNode> -> nat, holders: set<ExprNode>)
    requires TableOk(nodes, primary, overflow, hash) && forall e :: e in holders ==> Formed(e)
    ensures TableOk(HeldNodes(nodes, holders), HeldPrimary(primary, holders), HeldOverflow(overflow, holders), hash)
  {
    hide Held, Formed;
    var p, o := HeldPrimary(primary, holders), HeldOverflow(overflow, holders);
    forall h | h in o ensures DistinctData(o[h]) { HeldDistinct(overflow[h], holders); }
    forall h, n | h in o && n in o[h] ensures n in overflow[h] && Known(HeldNodes(nodes, holders), n) {
      assert n in HeldOnly(overflow[h], holders);
    }
  }

  lemma HeldFiled(nodes: Store, primary: map<nat, ExprNode>, overflow: map<nat, seq<ExprNode>>, next: nat,
                  holders: set<ExprNode>)
    requires StoreOk(nodes, next) && AllFiled(nodes, primary, overflow) && forall e :: e in holders ==> Formed(e)
    ensures AllFiled(HeldNodes(nodes, holders), HeldPrimary(primary, holders), HeldOverflow(overflow, holders))
  {
    hide Held, Formed;
    var after, p, o := HeldNodes(nodes, holders), HeldPrimary(primary, holders), HeldOverflow(overflow, holders);
    forall id | id in after ensures InTable(p, o, after[id]) {
      assert InTable(primary, overflow, nodes[id]);
      if h :| h in primary && primary[h] == nodes[id] {
        assert h in p && p[h] == nodes[id];
      } else {
        var h :| h in overflow && nodes[id] in overflow[h];
        assert h in o && nodes[id] in o[h];
      }
    }
  }

  lemma HeldMemos(nodes: Store, next: nat, holders: set<ExprNode>, shiftMemo: map<(nat, int, nat), ExprNode>,
                  inst1Memo: map<(nat, nat), ExprNode>, levelMemo: map<(nat, nat), ExprNode>, ids: map<Key, nat>,
                  usedMemo: map<nat, Option<seq<nat>>>)
    requires forall e :: e in holders ==> Formed(e)
    requires forall e :: e in holders ==> Known(HeldNodes(nodes, holders), e)
    requires shiftMemo.Values <= holders && inst1Memo.Values <= holders && levelMemo.Values <= holders
    requires ShiftMemoOk(nodes, next, shiftMemo) && Inst1MemoOk(nodes, next, inst1Memo)
    requires LevelMemoOk(nodes, next, levelMemo, ids) && UsedMemoOk(nodes, next, usedMemo)
    ensures var after := HeldNodes(nodes, holders);
            ShiftMemoOk(after, next, shiftMemo) && Inst1MemoOk(after, next, inst1Memo)
            && LevelMemoOk(after, next, levelMemo, ids) && UsedMemoOk(after, next, usedMemo)
  {
    hide Denote, Shift, Inst1, InstLevelParams, O.UsedSet, Held, Formed;
    var after := HeldNodes(nodes, holders);
    assert forall k :: k in shiftMemo ==> shiftMemo[k] in shiftMemo.Values;
    assert forall k :: k in inst1Memo ==> inst1Memo[k] in inst1Memo.Values;
    assert forall k :: k in levelMemo ==> levelMemo[k] in levelMemo.Values;
    assert Grows(after, nodes);
  }

  // --------------------------------------------------------------- the memos

  // A key may name a node that is gone: it says nothing then, and no later node gets its identity.

  ghost predicate ShiftMemoOk(nodes: Store, next: nat, memo: map<(nat, int, nat), ExprNode>) {
    forall k :: k in memo ==>
      k.0 < next && Known(nodes, memo[k])
      && (k.0 in nodes ==> Denote(memo[k]) == Shift(Denote(nodes[k.0]), k.1, k.2))
  }

  ghost function DenoteAll(ns: seq<ExprNode>): (r: seq<Term>)
    ensures |r| == |ns| && forall k :: 0 <= k < |ns| ==> r[k] == Denote(ns[k])
  {
    seq(|ns|, k requires 0 <= k < |ns| => Denote(ns[k]))
  }

  /** The memo of one instantiation: its arguments are fixed. */
  ghost predicate InstMemoOk(nodes: Store, memo: map<(nat, nat), ExprNode>, args: seq<Term>) {
    forall k :: k in memo ==>
      k.0 in nodes && Known(nodes, memo[k]) && Denote(memo[k]) == InstAt(Denote(nodes[k.0]), args, k.1)
  }

  ghost predicate Inst1MemoOk(nodes: Store, next: nat, memo: map<(nat, nat), ExprNode>) {
    forall k :: k in memo ==>
      k.0 < next && k.1 < next && Known(nodes, memo[k])
      && (k.0 in nodes && k.1 in nodes ==> Denote(memo[k]) == Inst1(Denote(nodes[k.0]), Denote(nodes[k.1])))
  }

  /** Substitution identities are the positions of distinct keys. */
  ghost predicate IdsOk(ids: map<Key, nat>) {
    (forall k :: k in ids ==> ids[k] < |ids| && SortedKey(k))
    && (forall k, k' :: k in ids && k' in ids && ids[k] == ids[k'] ==> k == k')
  }

  ghost predicate LevelMemoOk(nodes: Store, next: nat, memo: map<(nat, nat), ExprNode>, ids: map<Key, nat>) {
    forall k :: k in memo ==>
      k.0 < next && k.1 < |ids| && Known(nodes, memo[k])
      && (k.0 in nodes ==>
            forall key :: key in ids && ids[key] == k.1 ==>
              Denote(memo[k]) == InstLevelParams(Denote(nodes[k.0]), MapOf(key)))
  }

  ghost predicate UsedMemoOk(nodes: Store, next: nat, memo: map<nat, Option<seq<nat>>>) {
    forall id :: id in memo ==> id < next && (id in nodes ==> memo[id] == O.UsedSet(Denote(nodes[id])))
  }

  // --------------------------------------------- canonical substitution keys

  function MapOf(key: Key): L.Subst {
    if key == [] then map[] else MapOf(key[1..])[key[0].0 := key[0].1]
  }

  predicate SortedKey(key: Key) { forall i, j :: 0 <= i < j < |key| ==> key[i].0 < key[j].0 }

  function InsertKey(key: Key, p: (nat, L.Level)): Key {
    if key == [] then [p]
    else if p.0 < key[0].0 then [p] + key
    else [key[0]] + InsertKey(key[1..], p)
  }

  lemma {:induction false} MapOfKeys(key: Key)
    ensures forall n :: n in MapOf(key) ==> exists i :: 0 <= i < |key| && key[i].0 == n
    ensures forall i :: 0 <= i < |key| ==> key[i].0 in MapOf(key)
  {
    if key != [] {
      MapOfKeys(key[1..]);
      forall n | n in MapOf(key) ensures exists i :: 0 <= i < |key| && key[i].0 == n {
        if n == key[0].0 {
        } else {
          var i :| 0 <= i < |key[1..]| && key[1..][i].0 == n;
          assert key[i + 1].0 == n;
        }
      }
      forall i | 0 <= i < |key| ensures key[i].0 in MapOf(key) {
        if i > 0 { assert key[i] == key[1..][i - 1]; }
      }
    }
  }

  lemma {:induction false} InsertKeyMap(key: Key, p: (nat, L.Level))
    requires p.0 !in MapOf(key)
    ensures MapOf(InsertKey(key, p)) == MapOf(key)[p.0 := p.1]
    decreases |key|
  {
    if key == [] {
    } else if p.0 < key[0].0 {
      assert ([p] + key)[1..] == key;
    } else {
      InsertKeyMap(key[1..], p);
      assert ([key[0]] + InsertKey(key[1..], p))[1..] == InsertKey(key[1..], p);
      assert MapOf(key[1..])[p.0 := p.1][key[0].0 := key[0].1] == MapOf(key[1..])[key[0].0 := key[0].1][p.0 := p.1];
    }
  }

  lemma {:induction false} InsertKeyElements(key: Key, p: (nat, L.Level))
    ensures forall q :: q in InsertKey(key, p) <==> q == p || q in key
    decreases |key|
  {
    if key != [] {
      assert key == [key[0]] + key[1..];
      InsertKeyElements(key[1..], p);
    }
  }

  lemma {:induction false} InsertKeySorted(key: Key, p: (nat, L.Level))
    requires SortedKey(key) && forall q :: q in key ==> q.0 != p.0
    ensures SortedKey(InsertKey(key, p))
    decreases |key|
  {
    if key == [] {
    } else if p.0 < key[0].0 {
      forall q | q in key ensures p.0 < q.0 { assert key[0].0 <= q.0; }
      ConsSorted(p, key);
    } else {
      var rest := key[1..];
      assert key == [key[0]] + rest;
      InsertKeySorted(rest, p);
      InsertKeyElements(rest, p);
      var tail := InsertKey(rest, p);
      forall q | q in tail ensures key[0].0 < q.0 {
        if q in rest {
          var k :| 0 <= k < |rest| && rest[k] == q;
          assert key[k + 1] == q;
        }
      }
      ConsSorted(key[0], tail);
    }
  }

  lemma ConsSorted(p: (nat, L.Level), tail: Key)
    requires SortedKey(tail) && forall q :: q in tail ==> p.0 < q.0
    ensures SortedKey([p] + tail)
  {
    var whole := [p] + tail;
    forall i, j | 0 <= i < j < |whole| ensures whole[i].0 < whole[j].0 {
      assert whole[j] == tail[j - 1] && tail[j - 1] in tail;
    }
  }

  /** Sorted keys are canonical: equal substitutions have equal keys. */
  lemma {:induction false} SortedKeyUnique(a: Key, b: Key)
    requires SortedKey(a) && SortedKey(b) && MapOf(a) == MapOf(b)
    ensures a == b
    decreases |a|
  {
    LeastKey(a);
    LeastKey(b);
    if a != [] && b != [] {
      assert a[0].0 == b[0].0;
      TailMap(a);
      TailMap(b);
      SortedKeyUnique(a[1..], b[1..]);
      assert a == [a[0]] + a[1..] && b == [b[0]] + b[1..];
    }
  }

  lemma LeastKey(a: Key)
    requires SortedKey(a)
    ensures a == [] ==> MapOf(a) == map[]
    ensures a != [] ==> a[0].0 in MapOf(a) && MapOf(a)[a[0].0] == a[0].1 && forall n :: n in MapOf(a) ==> a[0].0 <= n
  {
    MapOfKeys(a);
  }

  lemma TailMap(a: Key)
    requires a != [] && SortedKey(a)
    ensures MapOf(a[1..]) == MapOf(a) - {a[0].0}
  {
    MapOfKeys(a[1..]);
    assert a[0].0 !in MapOf(a[1..]);
  }

  // -------------------------------------------------------------- the engine

  class Engine {
    const hash: ExprData<ExprNode> -> nat
    const reclaim: bool
    var nextId: nat
    var primary: map<nat, ExprNode>
    var overflow: map<nat, seq<ExprNode>>
    var shiftMemo: map<(nat, int, nat), ExprNode>
    var inst1Memo: map<(nat, nat), ExprNode>
    var levelMemo: map<(nat, nat), ExprNode>
    var substIds: map<Key, nat>
    var usedMemo: map<nat, Option<seq<nat>>>
    /** Every node that may still be referenced. */
    ghost var nodes: Store
    /** Whether the table has been emptied since the start. */
    ghost var cleared: bool

    constructor (hash: ExprData<ExprNode> -> nat, reclaim: bool)
      ensures Valid() && this.hash == hash && nodes == map[] && !cleared
    {
      this.hash, this.reclaim := hash, reclaim;
      nextId := 1;
      primary, overflow, shiftMemo, inst1Memo, levelMemo, substIds, usedMemo := map[], map[], map[], map[], map[],
        map[], map[];
      nodes, cleared := map[], false;
    }

    ghost predicate Valid()
      reads this
    {
      Core() && (!cleared ==> AllFiled(nodes, primary, overflow))
    }

    ghost predicate Core()
      reads this
    {
      StoreOk(nodes, nextId)
      && TableOk(nodes, primary, overflow, hash)
      && ShiftMemoOk(nodes, nextId, shiftMemo)
      && Inst1MemoOk(nodes, nextId, inst1Memo)
      && IdsOk(substIds)
      && LevelMemoOk(nodes, nextId, levelMemo, substIds)
      && UsedMemoOk(nodes, nextId, usedMemo)
    }

    method AllocNode(d: ExprData<ExprNode>) returns (e: ExprNode)
      requires Core() && KnownData(nodes, d)
      modifies this`nextId, this`nodes
      ensures Core() && nextId == old(nextId) + 1
      ensures e.data == d && e.identity == old(nextId) && nodes == old(nodes)[e.identity := e]
              && Grows(old(nodes), nodes)
    {
      hide StoreOk, TableOk, AllFiled, ShiftMemoOk, Inst1MemoOk, IdsOk, LevelMemoOk, UsedMemoOk, LooseOf, UsedOf;
      e := new ExprNode(nextId, d);
      NewFormed(nodes, nextId, e);
      nextId := nextId + 1;
      nodes := nodes[e.identity := e];
      StoreGrows(old(nodes), nodes, old(nextId), nextId, e);
      TableStays(old(nodes), nodes, primary, overflow, hash);
      MemosStay(old(nodes), nodes, old(nextId), shiftMemo, inst1Memo, levelMemo, substIds, usedMemo);
    }

    /** The node for `d`: the one already filed, or a new one with an identity never used before. */
    method Intern(d: ExprData<ExprNode>) returns (e: ExprNode)
      requires Valid() && KnownData(nodes, d)
      modifies this`nextId, this`nodes, this`primary, this`overflow
      ensures Valid() && Grows(old(nodes), nodes) && old(nextId) <= nextId
      ensures Known(nodes, e) && e.data == d && InTable(primary, overflow, e)
      ensures TableGrows(old(nodes), old(primary), old(overflow), primary, overflow)
      ensures HasData(old(nodes), old(primary), old(overflow), d) ==>
                nodes == old(nodes) && primary == old(primary) && overflow == old(overflow)
      ensures !HasData(old(nodes), old(primary), old(overflow), d) ==> e.identity == old(nextId)
    {
      hide ShiftMemoOk, Inst1MemoOk, LevelMemoOk, UsedMemoOk, IdsOk, StoreOk, Formed;
      var h := hash(d);
      if h in primary {
        e := primary[h];
        NodeEqIsEq(d, e.data);
        if NodeEq(d, e.data) { return; }
      }
      var found, at := Search(h, d);
      if found { return overflow[h][at]; }
      NoneFiled(nodes, primary, overflow, hash, d);
      e := FileNew(d);
    }

    /** Allocates the node and files it: first under its hash, or in the overflow bucket of that hash. */
    method FileNew(d: ExprData<ExprNode>) returns (e: ExprNode)
      requires Valid() && KnownData(nodes, d)
      requires hash(d) in primary ==> primary[hash(d)].data != d
      requires hash(d) in overflow ==> forall n :: n in overflow[hash(d)] ==> n.data != d
      modifies this`nextId, this`nodes, this`primary, this`overflow
      ensures Valid() && Grows(old(nodes), nodes) && old(nextId) <= nextId
      ensures Known(nodes, e) && e.data == d && InTable(primary, overflow, e) && e.identity == old(nextId)
      ensures TableGrows(old(nodes), old(primary), old(overflow), primary, overflow)
    {
      hide ShiftMemoOk, Inst1MemoOk, LevelMemoOk, UsedMemoOk, IdsOk, StoreOk, Formed, InTable, TableOk, AllFiled;
      var h := hash(d);
      e := AllocNode(d);
      if h in primary {
        AddOverflow(nodes, primary, overflow, hash, e);
        overflow := overflow[h := (if h in overflow then overflow[h] else []) + [e]];
      } else {
        AddPrimary(nodes, primary, overflow, hash, e);
        primary := primary[h := e];
      }
      FiledMore(old(nodes), nodes, old(primary), old(overflow), primary, overflow, e);
    }

    method Search(h: nat, d: ExprData<ExprNode>) returns (found: bool, at: nat)
      ensures found ==> h in overflow && at < |overflow[h]| && overflow[h][at].data == d
      ensures !found && h in overflow ==> forall n :: n in overflow[h] ==> n.data != d
    {
      found, at := false, 0;
      if h in overflow {
        while at < |overflow[h]|
          invariant at <= |overflow[h]|
          invariant forall i :: 0 <= i < at ==> overflow[h][i].data != d
        {
          NodeEqIsEq(d, overflow[h][at].data);
          if NodeEq(d, overflow[h][at].data) { return true, at; }
          at := at + 1;
        }
      }
    }

    // The smart constructors of nodes.

    method MkBVar(i: nat) returns (e: ExprNode)
      requires Valid()
      modifies this`nextId, this`nodes, this`primary, this`overflow
      ensures Valid() && Grows(old(nodes), nodes)
      ensures Known(nodes, e) && Formed(e) && Denote(e) == BVar(i)
    {
      hide ShiftMemoOk, Inst1MemoOk, LevelMemoOk, UsedMemoOk, IdsOk, StoreOk, TableOk, AllFiled, TableGrows, HasData,
           InTable, Formed, Denote;
      e := Intern(BVarD(i));
      KnownParts(nodes, nextId, e);
    }

    method MkSort(l: L.Level) returns (e: ExprNode)
      requires Valid()
      modifies this`nextId, this`nodes, this`primary, this`overflow
      ensures Valid() && Grows(old(nodes), nodes)
      ensures Known(nodes, e) && Formed(e) && Denote(e) == Sort(l)
    {
      hide ShiftMemoOk, Inst1MemoOk, LevelMemoOk, UsedMemoOk, IdsOk, StoreOk, TableOk, AllFiled, TableGrows, HasData,
           InTable, Formed, Denote;
      e := Intern(SortD(l));
      KnownParts(nodes, nextId, e);
    }

    method MkConst(n: nat, us: seq<L.Level>) returns (e: ExprNode)
      requires Valid()
      modifies this`nextId, this`nodes, this`primary, this`overflow
      ensures Valid() && Grows(old(nodes), nodes)
      ensures Known(nodes, e) && Formed(e) && Denote(e) == Const(n, us)
    {
      hide ShiftMemoOk, Inst1MemoOk, LevelMemoOk, UsedMemoOk, IdsOk, StoreOk, TableOk, AllFiled, TableGrows, HasData,
           InTable, Formed, Denote;
      e := Intern(ConstD(n, us));
      KnownParts(nodes, nextId, e);
    }

    method MkLit(lit: Literal) returns (e: ExprNode)
      requires Valid()
      modifies this`nextId, this`nodes, this`primary, this`overflow
      ensures Valid() && Grows(old(nodes), nodes)
      ensures Known(nodes, e) && Formed(e) && Denote(e) == Lit(lit)
    {
      hide ShiftMemoOk, Inst1MemoOk, LevelMemoOk, UsedMemoOk, IdsOk, StoreOk, TableOk, AllFiled, TableGrows, HasData,
           InTable, Formed, Denote;
      e := Intern(LitD(lit));
      KnownParts(nodes, nextId, e);
    }

    method MkApp(f: ExprNode, x: ExprNode) returns (e: ExprNode)
      requires Valid() && Known(nodes, f) && Known(nodes, x)
      modifies this`nextId, this`nodes, this`primary, this`overflow
      ensures Valid() && Grows(old(nodes), nodes)
      ensures Known(nodes, e) && Formed(e) && Denote(e) == App(Denote(f), Denote(x))
    {
      hide ShiftMemoOk, Inst1MemoOk, LevelMemoOk, UsedMemoOk, IdsOk, StoreOk, TableOk, AllFiled, TableGrows, HasData,
           InTable, Formed, Denote;
      e := Intern(AppD(f, x));
      KnownParts(nodes, nextId, e);
    }

    /** A lambda, or a Pi. */
    method MkBinder(isLam: bool, bi: BinderInfo, ty: ExprNode, body: ExprNode) returns (e: ExprNode)
      requires Valid() && Known(nodes, ty) && Known(nodes, body)
      modifies this`nextId, this`nodes, this`primary, this`overflow
      ensures Valid() && Grows(old(nodes), nodes)
      ensures Known(nodes, e) && Formed(e)
      ensures Denote(e) == if isLam then Lam(bi, Denote(ty), Denote(body)) else Pi(bi, Denote(ty), Denote(body))
    {
      hide ShiftMemoOk, Inst1MemoOk, LevelMemoOk, UsedMemoOk, IdsOk, StoreOk, TableOk, AllFiled, TableGrows, HasData,
           InTable, Formed, Denote;
      if isLam { e := Intern(LamD(bi, ty, body)); } else { e := Intern(PiD(bi, ty, body)); }
      KnownParts(nodes, nextId, e);
    }

    method MkLet(ty: ExprNode, val: ExprNode, body: ExprNode) returns (e: ExprNode)
      requires Valid() && Known(nodes, ty) && Known(nodes, val) && Known(nodes, body)
      modifies this`nextId, this`nodes, this`primary, this`overflow
      ensures Valid() && Grows(old(nodes), nodes)
      ensures Known(nodes, e) && Formed(e) && Denote(e) == Let(Denote(ty), Denote(val), Denote(body))
    {
      hide ShiftMemoOk, Inst1MemoOk, LevelMemoOk, UsedMemoOk, IdsOk, StoreOk, TableOk, AllFiled, TableGrows, HasData,
           InTable, Formed, Denote;
      e := Intern(LetD(ty, val, body));
      KnownParts(nodes, nextId, e);
    }

    method MkProj(s: nat, i: nat, v: ExprNode) returns (e: ExprNode)
      requires Valid() && Known(nodes, v)
      modifies this`nextId, this`nodes, this`primary, this`overflow
      ensures Valid() && Grows(old(nodes), nodes)
      ensures Known(nodes, e) && Formed(e) && Denote(e) == Proj(s, i, Denote(v))
    {
      hide ShiftMemoOk, Inst1MemoOk, LevelMemoOk, UsedMemoOk, IdsOk, StoreOk, TableOk, AllFiled, TableGrows, HasData,
           InTable, Formed, Denote;
      e := Intern(ProjD(s, i, v));
      KnownParts(nodes, nextId, e);
    }

    lemma Consistent()
      requires Valid()
      ensures StoreOk(nodes, nextId) && TableOk(nodes, primary, overflow, hash)
    {}

    lemma Parts(e: ExprNode)
      requires Valid() && Known(nodes, e)
      ensures PartsKnown(nodes, e)
    {
      KnownParts(nodes, nextId, e);
    }

    // ---------------------------------------------------------------- shift

    /** `memo_insert`: in reclaiming mode a memo that reached its limit is emptied first. */
    method RememberShift(key: (nat, int, nat), r: ExprNode)
      requires Valid() && Known(nodes, r) && key.0 in nodes && Denote(r) == Shift(Denote(nodes[key.0]), key.1, key.2)
      modifies this`shiftMemo
      ensures Valid()
      ensures shiftMemo == (if reclaim && |old(shiftMemo)| >= 50_000 then map[] else old(shiftMemo))[key := r]
    {
      hide Inst1MemoOk, LevelMemoOk, UsedMemoOk, IdsOk, StoreOk, Formed, TableOk, AllFiled;
      IdBelow(nodes, nextId, key.0);
      if reclaim && |shiftMemo| >= MEMO_LIMIT { shiftMemo := map[]; }
      shiftMemo := shiftMemo[key := r];
    }

    method ShiftNode(e: ExprNode, off: int, cutoff: nat) returns (r: ExprNode)
      requires Valid() && Known(nodes, e)
      modifies this`nextId, this`nodes, this`primary, this`overflow, this`shiftMemo
      ensures Valid() && Grows(old(nodes), nodes)
      ensures Known(nodes, r) && Formed(r) && Denote(r) == Shift(Denote(e), off, cutoff)
      decreases e.identity, 2
    {
      hide ShiftMemoOk, Inst1MemoOk, LevelMemoOk, UsedMemoOk, IdsOk, TableOk, AllFiled, StoreOk, Formed, Denote, Loose,
           O.Used;
      KnownParts(nodes, nextId, e);
      SummariesExact(e);
      if off == 0 { return e; }
      if e.loose <= cutoff {
        ShiftAboveRange(Denote(e), off, cutoff);
        return e;
      }
      var key := (e.identity, off, cutoff);
      if key in shiftMemo {
        ShiftMemoGives(nodes, nextId, shiftMemo, key, e);
        return shiftMemo[key];
      }
      r := ShiftParts(e, off, cutoff);
      RememberShift(key, r);
    }

    method ShiftParts(e: ExprNode, off: int, cutoff: nat) returns (r: ExprNode)
      requires Valid() && Known(nodes, e) && off != 0
      modifies this`nextId, this`nodes, this`primary, this`overflow, this`shiftMemo
      ensures Valid() && Grows(old(nodes), nodes)
      ensures Known(nodes, r) && Formed(r) && Denote(r) == Shift(Denote(e), off, cutoff)
      decreases e.identity, 1
    {
      hide Valid, Formed, Denote;
      Parts(e);
      match e.data {
        case BVarD(i) => if i >= cutoff { r := MkBVar(ShiftVar(i, off)); } else { r := e; }
        case SortD(_) => r := e;
        case ConstD(_, _) => r := e;
        case LitD(_) => r := e;
        case AppD(_, _) => r := ShiftApp(e, off, cutoff);
        case LamD(_, _, _) => r := ShiftBinder(e, off, cutoff);
        case PiD(_, _, _) => r := ShiftBinder(e, off, cutoff);
        case LetD(_, _, _) => r := ShiftLet(e, off, cutoff);
        case ProjD(_, _, _) => r := ShiftProj(e, off, cutoff);
      }
    }

    method ShiftApp(e: ExprNode, off: int, cutoff: nat) returns (r: ExprNode)
      requires Valid() && PartsKnown(nodes, e) && e.data.AppD? && off != 0
      modifies this`nextId, this`nodes, this`primary, this`overflow, this`shiftMemo
      ensures Valid() && Grows(old(nodes), nodes)
      ensures Known(nodes, r) && Formed(r) && Denote(r) == Shift(Denote(e), off, cutoff)
      decreases e.identity, 0
    {
      hide Valid, Formed, Denote;
      var f := ShiftNode(e.data.f, off, cutoff);
      var x := ShiftNode(e.data.x, off, cutoff);
      r := MkApp(f, x);
    }

    method ShiftBinder(e: ExprNode, off: int, cutoff: nat) returns (r: ExprNode)
      requires Valid() && PartsKnown(nodes, e) && (e.data.LamD? || e.data.PiD?) && off != 0
      modifies this`nextId, this`nodes, this`primary, this`overflow, this`shiftMemo
      ensures Valid() && Grows(old(nodes), nodes)
      ensures Known(nodes, r) && Formed(r) && Denote(r) == Shift(Denote(e), off, cutoff)
      decreases e.identity, 0
    {
      hide Valid, Formed, Denote;
      var ty := ShiftNode(e.data.ty, off, cutoff);
      var body := ShiftNode(e.data.body, off, cutoff + 1);
      r := MkBinder(e.data.LamD?, e.data.bi, ty, body);
    }

    method ShiftLet(e: ExprNode, off: int, cutoff: nat) returns (r: ExprNode)
      requires Valid() && PartsKnown(nodes, e) && e.data.LetD? && off != 0
      modifies this`nextId, this`nodes, this`primary, this`overflow, this`shiftMemo
      ensures Valid() && Grows(old(nodes), nodes)
      ensures Known(nodes, r) && Formed(r) && Denote(r) == Shift(Denote(e), off, cutoff)
      decreases e.identity, 0
    {
      hide Valid, Formed, Denote;
      var ty := ShiftNode(e.data.ty, off, cutoff);
      var val := ShiftNode(e.data.val, off, cutoff);
      var body := ShiftNode(e.data.body, off, cutoff + 1);
      r := MkLet(ty, val, body);
    }

    method ShiftProj(e: ExprNode, off: int, cutoff: nat) returns (r: ExprNode)
      requires Valid() && PartsKnown(nodes, e) && e.data.ProjD? && off != 0
      modifies this`nextId, this`nodes, this`primary, this`overflow, this`shiftMemo
      ensures Valid() && Grows(old(nodes), nodes)
      ensures Known(nodes, r) && Formed(r) && Denote(r) == Shift(Denote(e), off, cutoff)
      decreases e.identity, 0
    {
      hide Valid, Formed, Denote;
      var v := ShiftNode(e.data.v, off, cutoff);
      r := MkProj(e.data.sname, e.data.field, v);
    }

    // -------------------------------------------------------- instantiation

    /** One instantiation: the memo lives as long as the call, because its arguments are fixed. */
    method Instantiate(e: ExprNode, args: seq<ExprNode>) returns (r: ExprNode)
      requires Valid() && Known(nodes, e) && KnownAll(nodes, args)
      modifies this`nextId, this`nodes, this`primary, this`overflow, this`shiftMemo
      ensures Valid() && Grows(old(nodes), nodes)
      ensures Known(nodes, r) && Formed(r) && Denote(r) == InstAt(Denote(e), DenoteAll(args), 0)
    {
      hide Valid, Formed, Denote, DenoteAll;
      var memo;
      r, memo := InstantiateCore(e, args, DenoteAll(args), 0, map[]);
    }

    method InstantiateCore(e: ExprNode, args: seq<ExprNode>, ghost ts: seq<Term>, depth: nat, memo: map<(nat, nat),
                           ExprNode>)
      returns (r: ExprNode, memo': map<(nat, nat), ExprNode>)
      requires Valid() && Known(nodes, e)
      requires KnownAll(nodes, args) && ts == DenoteAll(args) && InstMemoOk(nodes, memo, ts)
      modifies this`nextId, this`nodes, this`primary, this`overflow, this`shiftMemo
      ensures Valid() && Grows(old(nodes), nodes) && InstMemoOk(nodes, memo', ts)
      ensures Known(nodes, r) && Formed(r) && Denote(r) == InstAt(Denote(e), ts, depth)
      decreases e.identity, 3
    {
      hide ShiftMemoOk, Inst1MemoOk, LevelMemoOk, UsedMemoOk, IdsOk, TableOk, AllFiled, StoreOk, Formed, Denote, Loose,
           O.Used, DenoteAll;
      KnownParts(nodes, nextId, e);
      SummariesExact(e);
      if e.loose <= depth {
        InstAboveRange(Denote(e), ts, depth);
        return e, memo;
      }
      var key := (e.identity, depth);
      if key in memo {
        KnownParts(nodes, nextId, memo[key]);
        return memo[key], memo;
      }
      r, memo' := InstParts(e, args, ts, depth, memo);
      memo' := memo'[key := r];
    }

    method InstParts(e: ExprNode, args: seq<ExprNode>, ghost ts: seq<Term>, depth: nat, memo: map<(nat, nat), ExprNode>)
      returns (r: ExprNode, memo': map<(nat, nat), ExprNode>)
      requires Valid() && Known(nodes, e)
      requires KnownAll(nodes, args) && ts == DenoteAll(args) && InstMemoOk(nodes, memo, ts)
      modifies this`nextId, this`nodes, this`primary, this`overflow, this`shiftMemo
      ensures Valid() && Grows(old(nodes), nodes) && InstMemoOk(nodes, memo', ts)
      ensures Known(nodes, r) && Formed(r) && Denote(r) == InstAt(Denote(e), ts, depth)
      decreases e.identity, 2
    {
      hide Valid, Formed, Denote, InstMemoOk, DenoteAll, Shift;
      Parts(e);
      memo' := memo;
      match e.data {
        case BVarD(_) => r := InstVar(e, args, ts, depth); InstMemoGrows(old(nodes), nodes, memo, ts);
        case SortD(_) => r := e;
        case ConstD(_, _) => r := e;
        case LitD(_) => r := e;
        case AppD(_, _) => r, memo' := InstApp(e, args, ts, depth, memo);
        case LamD(_, _, _) => r, memo' := InstBinder(e, args, ts, depth, memo);
        case PiD(_, _, _) => r, memo' := InstBinder(e, args, ts, depth, memo);
        case LetD(_, _, _) => r, memo' := InstLet(e, args, ts, depth, memo);
        case ProjD(_, _, _) => r, memo' := InstProj(e, args, ts, depth, memo);
      }
    }

    method InstVar(e: ExprNode, args: seq<ExprNode>, ghost ts: seq<Term>, depth: nat) returns (r: ExprNode)
      requires Valid() && Known(nodes, e) && PartsKnown(nodes, e) && e.data.BVarD?
      requires KnownAll(nodes, args) && ts == DenoteAll(args)
      modifies this`nextId, this`nodes, this`primary, this`overflow, this`shiftMemo
      ensures Valid() && Grows(old(nodes), nodes)
      ensures Known(nodes, r) && Formed(r) && Denote(r) == InstAt(Denote(e), ts, depth)
    {
      hide Valid, Formed, Denote, Shift;
      var i := e.data.i;
      if i >= depth && i - depth < |args| {
        r := ShiftNode(args[i - depth], depth, 0);
      } else if i >= depth {
        r := MkBVar(i - |args|);
      } else {
        r := e;
      }
    }

    method InstApp(e: ExprNode, args: seq<ExprNode>, ghost ts: seq<Term>, depth: nat, memo: map<(nat, nat), ExprNode>)
      returns (r: ExprNode, memo': map<(nat, nat), ExprNode>)
      requires Valid() && PartsKnown(nodes, e) && e.data.AppD?
      requires KnownAll(nodes, args) && ts == DenoteAll(args) && InstMemoOk(nodes, memo, ts)
      modifies this`nextId, this`nodes, this`primary, this`overflow, this`shiftMemo
      ensures Valid() && Grows(old(nodes), nodes) && InstMemoOk(nodes, memo', ts)
      ensures Known(nodes, r) && Formed(r) && Denote(r) == InstAt(Denote(e), ts, depth)
      decreases e.identity, 0
    {
      hide Valid, Formed, Denote, InstMemoOk, DenoteAll, Shift;
      var f, memo1 := InstantiateCore(e.data.f, args, ts, depth, memo);
      var x, memo2 := InstantiateCore(e.data.x, args, ts, depth, memo1);
      label L:
      r := MkApp(f, x);
      memo' := memo2;
      InstMemoGrows(old@L(nodes), nodes, memo2, ts);
    }

    method InstBinder(e: ExprNode, args: seq<ExprNode>, ghost ts: seq<Term>, depth: nat, memo: map<(nat, nat),
                      ExprNode>)
      returns (r: ExprNode, memo': map<(nat, nat), ExprNode>)
      requires Valid() && PartsKnown(nodes, e) && (e.data.LamD? || e.data.PiD?)
      requires KnownAll(nodes, args) && ts == DenoteAll(args) && InstMemoOk(nodes, memo, ts)
      modifies this`nextId, this`nodes, this`primary, this`overflow, this`shiftMemo
      ensures Valid() && Grows(old(nodes), nodes) && InstMemoOk(nodes, memo', ts)
      ensures Known(nodes, r) && Formed(r) && Denote(r) == InstAt(Denote(e), ts, depth)
      decreases e.identity, 0
    {
      hide Valid, Formed, Denote, InstMemoOk, DenoteAll, Shift;
      var ty, memo1 := InstantiateCore(e.data.ty, args, ts, depth, memo);
      var body, memo2 := InstantiateCore(e.data.body, args, ts, depth + 1, memo1);
      label L:
      r := MkBinder(e.data.LamD?, e.data.bi, ty, body);
      memo' := memo2;
      InstMemoGrows(old@L(nodes), nodes, memo2, ts);
    }

    method InstLet(e: ExprNode, args: seq<ExprNode>, ghost ts: seq<Term>, depth: nat, memo: map<(nat, nat), ExprNode>)
      returns (r: ExprNode, memo': map<(nat, nat), ExprNode>)
      requires Valid() && PartsKnown(nodes, e) && e.data.LetD?
      requires KnownAll(nodes, args) && ts == DenoteAll(args) && InstMemoOk(nodes, memo, ts)
      modifies this`nextId, this`nodes, this`primary, this`overflow, this`shiftMemo
      ensures Valid() && Grows(old(nodes), nodes) && InstMemoOk(nodes, memo', ts)
      ensures Known(nodes, r) && Formed(r) && Denote(r) == InstAt(Denote(e), ts, depth)
      decreases e.identity, 1
    {
      hide Valid, Formed, Denote, InstMemoOk, DenoteAll, Shift;
      var ty, val, body;
      ty, val, memo' := InstHead(e, args, ts, depth, memo);
      body, memo' := InstantiateCore(e.data.body, args, ts, depth + 1, memo');
      label L:
      r := MkLet(ty, val, body);
      InstMemoGrows(old@L(nodes), nodes, memo', ts);
    }

    /** The type and the value of a let. */
    method InstHead(e: ExprNode, args: seq<ExprNode>, ghost ts: seq<Term>, depth: nat, memo: map<(nat, nat), ExprNode>)
      returns (ty: ExprNode, val: ExprNode, memo': map<(nat, nat), ExprNode>)
      requires Valid() && PartsKnown(nodes, e) && e.data.LetD?
      requires KnownAll(nodes, args) && ts == DenoteAll(args) && InstMemoOk(nodes, memo, ts)
      modifies this`nextId, this`nodes, this`primary, this`overflow, this`shiftMemo
      ensures Valid() && Grows(old(nodes), nodes) && InstMemoOk(nodes, memo', ts)
      ensures Known(nodes, ty) && Formed(ty) && Denote(ty) == InstAt(Denote(e.data.ty), ts, depth)
      ensures Known(nodes, val) && Formed(val) && Denote(val) == InstAt(Denote(e.data.val), ts, depth)
      decreases e.identity, 0
    {
      hide Valid, Formed, Denote, InstMemoOk, DenoteAll, InstAt;
      ty, memo' := InstantiateCore(e.data.ty, args, ts, depth, memo);
      val, memo' := InstantiateCore(e.data.val, args, ts, depth, memo');
    }

    method InstProj(e: ExprNode, args: seq<ExprNode>, ghost ts: seq<Term>, depth: nat, memo: map<(nat, nat), ExprNode>)
      returns (r: ExprNode, memo': map<(nat, nat), ExprNode>)
      requires Valid() && PartsKnown(nodes, e) && e.data.ProjD?
      requires KnownAll(nodes, args) && ts == DenoteAll(args) && InstMemoOk(nodes, memo, ts)
      modifies this`nextId, this`nodes, this`primary, this`overflow, this`shiftMemo
      ensures Valid() && Grows(old(nodes), nodes) && InstMemoOk(nodes, memo', ts)
      ensures Known(nodes, r) && Formed(r) && Denote(r) == InstAt(Denote(e), ts, depth)
      decreases e.identity, 0
    {
      hide Valid, Formed, Denote, InstMemoOk, DenoteAll, Shift;
      var v, memo1 := InstantiateCore(e.data.v, args, ts, depth, memo);
      label L:
      r := MkProj(e.data.sname, e.data.field, v);
      memo' := memo1;
      InstMemoGrows(old@L(nodes), nodes, memo1, ts);
    }

    /** Single substitution, memoised on the two identities. */
    method Instantiate1(e: ExprNode, arg: ExprNode) returns (r: ExprNode)
      requires Valid() && Known(nodes, e) && Known(nodes, arg)
      modifies this`nextId, this`nodes, this`primary, this`overflow, this`shiftMemo, this`inst1Memo
      ensures Valid() && Grows(old(nodes), nodes)
      ensures Known(nodes, r) && Formed(r) && Denote(r) == Inst1(Denote(e), Denote(arg))
    {
      hide ShiftMemoOk, LevelMemoOk, UsedMemoOk, IdsOk, TableOk, AllFiled, Formed, Denote, InstAt, Inst1, Grows,
           DenoteAll;
      var key := (e.identity, arg.identity);
      if key in inst1Memo {
        r := inst1Memo[key];
        KnownParts(nodes, nextId, r);
        GrowsSelf(nodes);
        return;
      }
      r := Inst1Fresh(e, arg);
      RememberInst1(key, e, arg, r);
    }

    method Inst1Fresh(e: ExprNode, arg: ExprNode) returns (r: ExprNode)
      requires Valid() && Known(nodes, e) && Known(nodes, arg)
      modifies this`nextId, this`nodes, this`primary, this`overflow, this`shiftMemo
      ensures Valid() && Grows(old(nodes), nodes)
      ensures Known(nodes, r) && Formed(r) && Denote(r) == Inst1(Denote(e), Denote(arg))
      ensures Known(nodes, e) && Known(nodes, arg)
    {
      hide Valid, Formed, Denote, InstAt;
      r := Instantiate(e, [arg]);
      assert DenoteAll([arg]) == [Denote(arg)];
    }

    method RememberInst1(key: (nat, nat), ghost e: ExprNode, ghost arg: ExprNode, r: ExprNode)
      requires Valid() && Known(nodes, r) && Known(nodes, e) && Known(nodes, arg) && key == (e.identity, arg.identity)
      requires Denote(r) == Inst1(Denote(e), Denote(arg))
      modifies this`inst1Memo
      ensures Valid()
      ensures inst1Memo == (if reclaim && |old(inst1Memo)| >= 50_000 then map[] else old(inst1Memo))[key := r]
    {
      hide ShiftMemoOk, LevelMemoOk, UsedMemoOk, IdsOk, StoreOk, Formed, TableOk, AllFiled, Denote, Inst1;
      IdBelow(nodes, nextId, key.0);
      IdBelow(nodes, nextId, key.1);
      if reclaim && |inst1Memo| >= MEMO_LIMIT { inst1Memo := map[]; }
      inst1Memo := inst1Memo[key := r];
    }

    // ------------------------------------------- universe instantiation

    /** Collects the substitution's entries in any order and sorts them by name. */
    method SortKey(subst: L.Subst) returns (key: Key)
      ensures SortedKey(key) && MapOf(key) == subst
    {
      key := [];
      var left := subst.Keys;
      hide InsertKey;
      while left != {}
        invariant left <= subst.Keys && SortedKey(key) && MapOf(key) == subst - left
        invariant forall q :: q in key ==> q.0 !in left
        decreases left
      {
        var n :| n in left;
        InsertKeyMap(key, (n, subst[n]));
        InsertKeySorted(key, (n, subst[n]));
        InsertKeyElements(key, (n, subst[n]));
        assert subst - (left - {n}) == (subst - left)[n := subst[n]];
        key := InsertKey(key, (n, subst[n]));
        left := left - {n};
      }
      assert subst - {} == subst;
    }

    /** The identity of a substitution: assigned after comparing the whole key, never by hash alone. */
    method LevelSubstId(subst: L.Subst) returns (id: nat, key: Key)
      requires Valid()
      modifies this`substIds
      ensures Valid()
      ensures SortedKey(key) && MapOf(key) == subst && key in substIds && substIds[key] == id
      ensures forall k :: k in old(substIds) ==> k in substIds && substIds[k] == old(substIds)[k]
    {
      hide ShiftMemoOk, Inst1MemoOk, UsedMemoOk, StoreOk, Formed, TableOk, AllFiled, Denote, InstLevelParams, SortedKey,
           MapOf;
      key := SortKey(subst);
      var next := |substIds|;
      if key !in substIds {
        IdsGrow(substIds, key);
        substIds := substIds[key := next];
      }
      id := substIds[key];
    }

    method InstantiateLevelParams(e: ExprNode, subst: L.Subst) returns (r: ExprNode)
      requires Valid() && Known(nodes, e)
      modifies this`nextId, this`nodes, this`primary, this`overflow, this`levelMemo, this`substIds
      ensures Valid() && Grows(old(nodes), nodes)
      ensures Known(nodes, r) && Formed(r)
      ensures Denote(r) == if subst == map[] then Denote(e) else InstLevelParams(Denote(e), subst)
    {
      hide ShiftMemoOk, Inst1MemoOk, LevelMemoOk, UsedMemoOk, IdsOk, TableOk, AllFiled, Formed, Denote, InstLevelParams;
      if subst == map[] {
        KnownParts(nodes, nextId, e);
        return e;
      }
      var id, key := LevelSubstId(subst);
      r := LevelCached(e, subst, id, key);
    }

    method LevelCached(e: ExprNode, subst: L.Subst, id: nat, ghost key: Key) returns (r: ExprNode)
      requires Valid() && Known(nodes, e) && key in substIds && substIds[key] == id && MapOf(key) == subst
      modifies this`nextId, this`nodes, this`primary, this`overflow, this`levelMemo
      ensures Valid() && Grows(old(nodes), nodes)
      ensures Known(nodes, r) && Formed(r) && Denote(r) == InstLevelParams(Denote(e), subst)
      decreases e.identity, 2
    {
      hide ShiftMemoOk, Inst1MemoOk, UsedMemoOk, IdsOk, TableOk, AllFiled, Formed, Denote, InstLevelParams, MapOf;
      var at := (e.identity, id);
      if at in levelMemo {
        r := levelMemo[at];
        KnownParts(nodes, nextId, r);
        return;
      }
      r := LevelParts(e, subst, id, key);
      RememberLevel(at, e, r, subst, key);
    }

    method RememberLevel(at: (nat, nat), ghost e: ExprNode, r: ExprNode, ghost subst: L.Subst, ghost key: Key)
      requires Valid() && Known(nodes, r) && Known(nodes, e) && at.0 == e.identity
      requires key in substIds && substIds[key] == at.1 && MapOf(key) == subst
               && Denote(r) == InstLevelParams(Denote(e), subst)
      modifies this`levelMemo
      ensures Valid()
      ensures levelMemo == (if reclaim && |old(levelMemo)| >= 50_000 then map[] else old(levelMemo))[at := r]
    {
      hide ShiftMemoOk, Inst1MemoOk, LevelMemoOk, UsedMemoOk, IdsOk, StoreOk, Formed, TableOk, AllFiled, Denote,
           InstLevelParams, MapOf;
      IdBelow(nodes, nextId, at.0);
      LevelMemoMore(nodes, nextId, levelMemo, substIds, at, e, r, subst, key);
      if reclaim && |levelMemo| >= MEMO_LIMIT { levelMemo := map[]; }
      levelMemo := levelMemo[at := r];
    }

    method LevelParts(e: ExprNode, subst: L.Subst, id: nat, ghost key: Key) returns (r: ExprNode)
      requires Valid() && Known(nodes, e) && key in substIds && substIds[key] == id && MapOf(key) == subst
      modifies this`nextId, this`nodes, this`primary, this`overflow, this`levelMemo
      ensures Valid() && Grows(old(nodes), nodes)
      ensures Known(nodes, r) && Formed(r) && Denote(r) == InstLevelParams(Denote(e), subst)
      decreases e.identity, 1
    {
      hide Valid, Formed, Denote, MapOf;
      Parts(e);
      match e.data {
        case BVarD(_) => r := e;
        case LitD(_) => r := e;
        case SortD(l) => r := MkSort(L.Instantiate(l, subst));
        case ConstD(n, us) => r := MkConst(n, InstLevels(us, subst));
        case AppD(_, _) => r := LevelApp(e, subst, id, key);
        case LamD(_, _, _) => r := LevelBinder(e, subst, id, key);
        case PiD(_, _, _) => r := LevelBinder(e, subst, id, key);
        case LetD(_, _, _) => r := LevelLet(e, subst, id, key);
        case ProjD(_, _, _) => r := LevelProj(e, subst, id, key);
      }
    }

    method LevelApp(e: ExprNode, subst: L.Subst, id: nat, ghost key: Key) returns (r: ExprNode)
      requires Valid() && PartsKnown(nodes, e) && e.data.AppD? && key in substIds && substIds[key] == id
               && MapOf(key) == subst
      modifies this`nextId, this`nodes, this`primary, this`overflow, this`levelMemo
      ensures Valid() && Grows(old(nodes), nodes)
      ensures Known(nodes, r) && Formed(r) && Denote(r) == InstLevelParams(Denote(e), subst)
      decreases e.identity, 0
    {
      hide Valid, Formed, Denote, MapOf;
      var f := LevelCached(e.data.f, subst, id, key);
      var x := LevelCached(e.data.x, subst, id, key);
      r := MkApp(f, x);
    }

    method LevelBinder(e: ExprNode, subst: L.Subst, id: nat, ghost key: Key) returns (r: ExprNode)
      requires Valid() && PartsKnown(nodes, e) && (e.data.LamD? || e.data.PiD?)
      requires key in substIds && substIds[key] == id && MapOf(key) == subst
      modifies this`nextId, this`nodes, this`primary, this`overflow, this`levelMemo
      ensures Valid() && Grows(old(nodes), nodes)
      ensures Known(nodes, r) && Formed(r) && Denote(r) == InstLevelParams(Denote(e), subst)
      decreases e.identity, 0
    {
      hide Valid, Formed, Denote, MapOf;
      var ty := LevelCached(e.data.ty, subst, id, key);
      var body := LevelCached(e.data.body, subst, id, key);
      r := MkBinder(e.data.LamD?, e.data.bi, ty, body);
    }

    method LevelLet(e: ExprNode, subst: L.Subst, id: nat, ghost key: Key) returns (r: ExprNode)
      requires Valid() && PartsKnown(nodes, e) && e.data.LetD? && key in substIds && substIds[key] == id
               && MapOf(key) == subst
      modifies this`nextId, this`nodes, this`primary, this`overflow, this`levelMemo
      ensures Valid() && Grows(old(nodes), nodes)
      ensures Known(nodes, r) && Formed(r) && Denote(r) == InstLevelParams(Denote(e), subst)
      decreases e.identity, 0
    {
      hide Valid, Formed, Denote, MapOf;
      var ty := LevelCached(e.data.ty, subst, id, key);
      var val := LevelCached(e.data.val, subst, id, key);
      var body := LevelCached(e.data.body, subst, id, key);
      r := MkLet(ty, val, body);
    }

    method LevelProj(e: ExprNode, subst: L.Subst, id: nat, ghost key: Key) returns (r: ExprNode)
      requires Valid() && PartsKnown(nodes, e) && e.data.ProjD? && key in substIds && substIds[key] == id
               && MapOf(key) == subst
      modifies this`nextId, this`nodes, this`primary, this`overflow, this`levelMemo
      ensures Valid() && Grows(old(nodes), nodes)
      ensures Known(nodes, r) && Formed(r) && Denote(r) == InstLevelParams(Denote(e), subst)
      decreases e.identity, 0
    {
      hide Valid, Formed, Denote, MapOf;
      var v := LevelCached(e.data.v, subst, id, key);
      r := MkProj(e.data.sname, e.data.field, v);
    }

    // ----------------------------------------------------- occurrence lists

    method UsedBvarSet(e: ExprNode) returns (r: Option<seq<nat>>)
      requires Valid() && Known(nodes, e)
      modifies this`usedMemo
      ensures Valid() && r == O.UsedSet(Denote(e))
      decreases e.identity, 2
    {
      hide ShiftMemoOk, Inst1MemoOk, LevelMemoOk, IdsOk, TableOk, AllFiled, Formed, Denote, O.Used, Loose;
      KnownParts(nodes, nextId, e);
      SummariesExact(e);
      if e.used != O.USED_OVERFLOW {
        var bits := O.BitsToList(e.used, 0);
        return Some(bits);
      }
      if e.identity in usedMemo { return usedMemo[e.identity]; }
      r := UsedParts(e);
      usedMemo := usedMemo[e.identity := r];
    }

    method UsedParts(e: ExprNode) returns (r: Option<seq<nat>>)
      requires Valid() && Known(nodes, e) && O.Used(Denote(e)) == O.USED_OVERFLOW
      modifies this`usedMemo
      ensures Valid() && r == O.UsedSet(Denote(e))
      decreases e.identity, 1
    {
      hide Valid, Formed, Denote, O.Used, Loose, O.Merged, O.ChildUsed;
      Parts(e);
      match e.data {
        case BVarD(i) => r := Some([i]);
        case SortD(_) => r := Some([]);
        case ConstD(_, _) => r := Some([]);
        case LitD(_) => r := Some([]);
        case AppD(f, x) => r := ThenChild(e, Some([]), f, 0); r := ThenChild(e, r, x, 0);
        case LamD(_, ty, body) => r := ThenChild(e, Some([]), ty, 0); r := ThenChild(e, r, body, 1);
        case PiD(_, ty, body) => r := ThenChild(e, Some([]), ty, 0); r := ThenChild(e, r, body, 1);
        case LetD(ty, val, body) =>
          r := ThenChild(e, Some([]), ty, 0);
          r := ThenChild(e, r, val, 0);
          r := ThenChild(e, r, body, 1);
        case ProjD(_, _, v) => r := ThenChild(e, Some([]), v, 0);
      }
    }

    /** Merges the next child's list, unless an earlier step already gave up. */
    method ThenChild(ghost whole: ExprNode, acc: Option<seq<nat>>, c: ExprNode, drop: nat) returns (r: Option<seq<nat>>)
      requires Valid() && Known(nodes, c) && c.identity < whole.identity && drop <= 1
      modifies this`usedMemo
      ensures Valid() && r == O.Then(acc, O.ChildUsed(Denote(c), drop))
      decreases whole.identity, 0
    {
      hide Formed, Denote, O.Used, Loose, O.Merged, O.UsedSet, O.BitsList, O.DropBelow;
      if acc.None? { return None; }
      KnownParts(nodes, nextId, c);
      SummariesExact(c);
      var list;
      if c.loose <= drop {
        list := [];
      } else if c.used != O.USED_OVERFLOW {
        list := O.BitsToList(if drop == 0 then c.used else c.used / 2, 0);
      } else {
        var s := UsedBvarSet(c);
        if s.None? { return None; }
        list := O.DropBelow(s.value, drop);
      }
      r := O.MergeUsed(acc.value, list);
    }

    // -------------------------------------------------------------- clearing

    method ClearSubstMemos()
      requires Valid()
      modifies this`levelMemo, this`substIds, this`shiftMemo, this`inst1Memo, this`usedMemo
      ensures Valid()
      ensures levelMemo == map[] && substIds == map[] && shiftMemo == map[] && inst1Memo == map[] && usedMemo == map[]
    {
      hide StoreOk, TableOk, AllFiled, ShiftMemoOk, Inst1MemoOk, LevelMemoOk, UsedMemoOk, IdsOk;
      EmptyMemosOk(nodes, nextId);
      levelMemo := map[];
      substIds := map[];
      shiftMemo := map[];
      inst1Memo := map[];
      usedMemo := map[];
    }

    /** What the weak table shows: in reclaiming mode an entry is gone once neither `roots` nor a memo result reaches
        its node. The memos' keys hold nothing, and stay. */
    method LoseDead(roots: seq<ExprNode>) returns (ghost holders: set<ExprNode>)
      requires Valid() && KnownAll(nodes, roots)
      modifies this`primary, this`overflow, this`nodes
      ensures Valid() && KnownAll(nodes, roots)
      ensures holders == (set k | 0 <= k < |roots| :: roots[k]) + shiftMemo.Values + inst1Memo.Values + levelMemo.Values
      ensures forall e :: e in holders ==> Formed(e)
      ensures !reclaim ==> nodes == old(nodes) && primary == old(primary) && overflow == old(overflow)
      ensures reclaim ==>
                nodes == HeldNodes(old(nodes), holders)
                && primary == HeldPrimary(old(primary), holders) && overflow == HeldOverflow(old(overflow), holders)
    {
      hide StoreOk, TableOk, AllFiled, ShiftMemoOk, Inst1MemoOk, LevelMemoOk, UsedMemoOk, IdsOk, Formed, HeldNodes,
           HeldPrimary, HeldOverflow;
      var held := Holders(roots);
      holders := held;
      if !reclaim { return; }
      HeldStore(nodes, nextId, holders);
      HeldTable(nodes, primary, overflow, hash, holders);
      HeldMemos(nodes, nextId, holders, shiftMemo, inst1Memo, levelMemo, substIds, usedMemo);
      if !cleared { HeldFiled(nodes, primary, overflow, nextId, holders); }
      primary := HeldPrimary(primary, held);
      overflow := HeldOverflow(overflow, held);
      nodes := HeldNodes(nodes, holders);
    }

    method Holders(roots: seq<ExprNode>) returns (holders: set<ExprNode>)
      requires Valid() && KnownAll(nodes, roots)
      ensures forall e :: e in holders ==> Known(nodes, e) && Formed(e)
      ensures holders == (set k | 0 <= k < |roots| :: roots[k]) + shiftMemo.Values + inst1Memo.Values + levelMemo.Values
    {
      hide TableOk, AllFiled, UsedMemoOk, IdsOk, Formed, Denote, Shift, Inst1, InstLevelParams;
      holders := (set k | 0 <= k < |roots| :: roots[k]) + shiftMemo.Values + inst1Memo.Values + levelMemo.Values;
    }

    /** Resets the table alone once it has more entries than the threshold; identities keep growing. */
    method InternClear(threshold: nat) returns (emptied: bool)
      requires Valid()
      modifies this`primary, this`overflow, this`cleared
      ensures Valid() && emptied == (EntryCount(old(primary), old(overflow)) > threshold)
      ensures if emptied then primary == map[] && overflow == map[] && cleared
              else primary == old(primary) && overflow == old(overflow) && cleared == old(cleared)
    {
      hide StoreOk, ShiftMemoOk, Inst1MemoOk, LevelMemoOk, UsedMemoOk, IdsOk, Formed, AllFiled;
      var count := CountEntries(primary, overflow);
      if count > threshold {
        primary, overflow := map[], map[];
        cleared := true;
      }
      emptied := count > threshold;
    }
  }

  lemma LevelMemoMore(nodes: Store, next: nat, memo: map<(nat, nat), ExprNode>, ids: map<Key, nat>, at: (nat, nat),
                      e: ExprNode, r: ExprNode, subst: L.Subst, key: Key)
    requires IdsOk(ids) && Known(nodes, r) && Known(nodes, e) && at.0 == e.identity < next
    requires key in ids && ids[key] == at.1 && MapOf(key) == subst && Denote(r) == InstLevelParams(Denote(e), subst)
    ensures LevelMemoOk(nodes, next, memo, ids) ==> LevelMemoOk(nodes, next, memo[at := r], ids)
    ensures LevelMemoOk(nodes, next, map[][at := r], ids)
  {
    hide Denote, InstLevelParams, MapOf, SortedKey;
  }

  lemma IdBelow(nodes: Store, next: nat, id: nat)
    requires StoreOk(nodes, next) && id in nodes
    ensures id < next
  {}

  lemma NewFormed(nodes: Store, next: nat, e: ExprNode)
    requires StoreOk(nodes, next) && KnownData(nodes, e.data) && e.identity == next
    requires e.loose == LooseOf(e.data) && e.used == UsedOf(e.data)
    ensures Formed(e)
  {
    hide LooseOf, UsedOf;
    forall c | c in Children(e.data) ensures c.identity < e.identity && Formed(c) { assert Known(nodes, c); }
  }

  lemma TableStays(before: Store, after: Store, primary: map<nat, ExprNode>, overflow: map<nat, seq<ExprNode>>,
                   hash: ExprData<ExprNode> -> nat)
    requires Grows(before, after) && TableOk(before, primary, overflow, hash)
    ensures TableOk(after, primary, overflow, hash)
  {}

  /** A node under an identity not given out before leaves every memo right. */
  lemma MemosStay(before: Store, after: Store, next: nat, shiftMemo: map<(nat, int, nat), ExprNode>,
                  inst1Memo: map<(nat, nat), ExprNode>, levelMemo: map<(nat, nat), ExprNode>, ids: map<Key, nat>,
                  usedMemo: map<nat, Option<seq<nat>>>)
    requires Grows(before, after) && forall id :: id in after && id < next ==> id in before
    requires ShiftMemoOk(before, next, shiftMemo) && Inst1MemoOk(before, next, inst1Memo)
    requires LevelMemoOk(before, next, levelMemo, ids) && UsedMemoOk(before, next, usedMemo)
    ensures ShiftMemoOk(after, next + 1, shiftMemo) && Inst1MemoOk(after, next + 1, inst1Memo)
    ensures LevelMemoOk(after, next + 1, levelMemo, ids) && UsedMemoOk(after, next + 1, usedMemo)
  {
    hide Denote, Shift, Inst1, InstLevelParams, O.UsedSet;
  }

  lemma StoreGrows(before: Store, after: Store, next: nat, next': nat, e: ExprNode)
    requires StoreOk(before, next) && e.identity == next < next' && after == before[next := e]
    requires Formed(e) && KnownData(before, e.data)
    ensures StoreOk(after, next') && Grows(before, after)
  {
    assert next !in before;
    forall id | id in after ensures KnownData(after, after[id].data) {
      forall c | c in Children(after[id].data) ensures Known(after, c) { assert Known(before, c); }
    }
  }

  /** A node is formed, its children are known and older, and its term is made of theirs. */
  ghost predicate PartsKnown(nodes: Store, e: ExprNode) {
    Formed(e)
    && match e.data
       case BVarD(i) => Denote(e) == BVar(i)
       case SortD(l) => Denote(e) == Sort(l)
       case ConstD(n, us) => Denote(e) == Const(n, us)
       case LitD(lit) => Denote(e) == Lit(lit)
       case AppD(f, x) =>
         Known(nodes, f) && Known(nodes, x) && f.identity < e.identity && x.identity < e.identity
         && Denote(e) == App(Denote(f), Denote(x))
       case LamD(bi, ty, body) =>
         Known(nodes, ty) && Known(nodes, body) && ty.identity < e.identity && body.identity < e.identity
         && Denote(e) == Lam(bi, Denote(ty), Denote(body))
       case PiD(bi, ty, body) =>
         Known(nodes, ty) && Known(nodes, body) && ty.identity < e.identity && body.identity < e.identity
         && Denote(e) == Pi(bi, Denote(ty), Denote(body))
       case LetD(ty, val, body) =>
         Known(nodes, ty) && Known(nodes, val) && Known(nodes, body)
         && ty.identity < e.identity && val.identity < e.identity && body.identity < e.identity
         && Denote(e) == Let(Denote(ty), Denote(val), Denote(body))
       case ProjD(s, i, v) => Known(nodes, v) && v.identity < e.identity && Denote(e) == Proj(s, i, Denote(v))
  }

  lemma KnownParts(nodes: Store, next: nat, e: ExprNode)
    requires StoreOk(nodes, next) && Known(nodes, e)
    ensures PartsKnown(nodes, e)
  {
    FormedChildren(e);
    forall c | c in Children(e.data) ensures Known(nodes, c) {}
    match e.data
    case AppD(f, x) => assert f in Children(e.data) && x in Children(e.data);
    case LamD(_, ty, body) => assert ty in Children(e.data) && body in Children(e.data);
    case PiD(_, ty, body) => assert ty in Children(e.data) && body in Children(e.data);
    case LetD(ty, val, body) => assert ty in Children(e.data) && val in Children(e.data) && body in Children(e.data);
    case ProjD(_, _, v) => assert v in Children(e.data);
    case _ =>
  }

  lemma ShiftMemoGives(nodes: Store, next: nat, memo: map<(nat, int, nat), ExprNode>, key: (nat, int, nat), e: ExprNode)
    requires StoreOk(nodes, next) && ShiftMemoOk(nodes, next, memo) && key in memo && Known(nodes, e)
             && key.0 == e.identity
    ensures Known(nodes, memo[key]) && Formed(memo[key]) && Denote(memo[key]) == Shift(Denote(e), key.1, key.2)
  {}

  lemma EmptyMemosOk(nodes: Store, next: nat)
    ensures ShiftMemoOk(nodes, next, map[]) && Inst1MemoOk(nodes, next, map[]) && IdsOk(map[])
    ensures LevelMemoOk(nodes, next, map[], map[]) && UsedMemoOk(nodes, next, map[])
  {}

  lemma GrowsSelf(nodes: Store)
    ensures Grows(nodes, nodes)
  {}

  lemma IdsGrow(ids: map<Key, nat>, key: Key)
    requires IdsOk(ids) && key !in ids && SortedKey(key)
    ensures IdsOk(ids[key := |ids|]) && |ids[key := |ids|]| == |ids| + 1
  {}

  /** Between clears two substitutions share an identity if and only if they are equal. */
  lemma SubstIdExact(ids: map<Key, nat>, a: Key, b: Key)
    requires IdsOk(ids) && a in ids && b in ids
    ensures ids[a] == ids[b] <==> MapOf(a) == MapOf(b)
  {
    if MapOf(a) == MapOf(b) { SortedKeyUnique(a, b); }
  }

  lemma InstMemoGrows(before: Store, after: Store, memo: map<(nat, nat), ExprNode>, ts: seq<Term>)
    requires Grows(before, after) && InstMemoOk(before, memo, ts)
    ensures InstMemoOk(after, memo, ts)
  {}
}
