/**
 The undo journal of an inductive block: every write to the environment records what it
 replaced, and replaying the journal backwards restores all three maps.
 */
module Undo {
  import opened Terms

  class Environment<C> {
    var consts: map<nat, C>
    /** Inductive type to its recursor. */
    var recOf: map<nat, nat>
    /** Recursor to all recursors of its block. */
    var recGroup: map<nat, seq<nat>>

    constructor ()
      ensures consts == map[] && recOf == map[] && recGroup == map[]
    {
      consts, recOf, recGroup := map[], map[], map[];
    }
  }

  datatype Write<+C> =
    | Constant(name: nat, oldInfo: Option<C>)
    | Owner(name: nat, oldRec: Option<nat>)
    | Group(name: nat, oldGroup: Option<seq<nat>>)

  datatype Maps<+C> = Maps(consts: map<nat, C>, recOf: map<nat, nat>, recGroup: map<nat, seq<nat>>)

  function Prior<V>(m: map<nat, V>, name: nat): Option<V> { if name in m then Some(m[name]) else None }

  function Restored<V>(m: map<nat, V>, name: nat, prior: Option<V>): map<nat, V> {
    if prior.Some? then m[name := prior.value] else m - {name}
  }

  /** Taking back one write. */
  function TakeBack<C>(m: Maps<C>, w: Write<C>): Maps<C> {
    match w
    case Constant(name, prior) => m.(consts := Restored(m.consts, name, prior))
    case Owner(name, prior) => m.(recOf := Restored(m.recOf, name, prior))
    case Group(name, prior) => m.(recGroup := Restored(m.recGroup, name, prior))
  }

  /** Taking back a journal, the latest write first. */
  function Unwound<C>(m: Maps<C>, journal: seq<Write<C>>): Maps<C>
    decreases |journal|
  {
    if journal == [] then m else Unwound(TakeBack(m, journal[|journal| - 1]), journal[..|journal| - 1])
  }

  lemma InsertRestored<V>(m: map<nat, V>, name: nat, value: V)
    ensures Restored(m[name := value], name, Prior(m, name)) == m
  {}

  /** The journal of writes made since `start` leads back to it. */
  ghost predicate LeadsBack<C>(start: Maps<C>, now: Maps<C>, journal: seq<Write<C>>) { Unwound(now, journal) == start }

  lemma LeadsBackMore<C>(start: Maps<C>, now: Maps<C>, journal: seq<Write<C>>, next: Maps<C>, w: Write<C>)
    requires LeadsBack(start, now, journal) && TakeBack(next, w) == now
    ensures LeadsBack(start, next, journal + [w])
  {
    assert (journal + [w])[..|journal|] == journal;
  }

  class InductiveUndo<C> {
    var journal: seq<Write<C>>

    constructor ()
      ensures journal == []
    {
      journal := [];
    }

    /** Starting from the maps this journal leads back to. */
    method InsertConstant(env: Environment<C>, name: nat, value: C, ghost start: Maps<C>)
      requires LeadsBack(start, Maps(env.consts, env.recOf, env.recGroup), journal)
      modifies this, env
      ensures env.consts == old(env.consts)[name := value] && env.recOf == old(env.recOf)
              && env.recGroup == old(env.recGroup)
      ensures LeadsBack(start, Maps(env.consts, env.recOf, env.recGroup), journal)
    {
      hide Unwound;
      var prior := Prior(env.consts, name);
      InsertRestored(env.consts, name, value);
      env.consts := env.consts[name := value];
      LeadsBackMore(start, Maps(old(env.consts), env.recOf, env.recGroup), journal,
                    Maps(env.consts, env.recOf, env.recGroup), Constant(name, prior));
      journal := journal + [Constant(name, prior)];
    }

    method InsertOwner(env: Environment<C>, name: nat, recursor: nat, ghost start: Maps<C>)
      requires LeadsBack(start, Maps(env.consts, env.recOf, env.recGroup), journal)
      modifies this, env
      ensures env.recOf == old(env.recOf)[name := recursor] && env.consts == old(env.consts)
              && env.recGroup == old(env.recGroup)
      ensures LeadsBack(start, Maps(env.consts, env.recOf, env.recGroup), journal)
    {
      hide Unwound;
      var prior := Prior(env.recOf, name);
      InsertRestored(env.recOf, name, recursor);
      env.recOf := env.recOf[name := recursor];
      LeadsBackMore(start, Maps(env.consts, old(env.recOf), env.recGroup), journal,
                    Maps(env.consts, env.recOf, env.recGroup), Owner(name, prior));
      journal := journal + [Owner(name, prior)];
    }

    method InsertGroup(env: Environment<C>, name: nat, group: seq<nat>, ghost start: Maps<C>)
      requires LeadsBack(start, Maps(env.consts, env.recOf, env.recGroup), journal)
      modifies this, env
      ensures env.recGroup == old(env.recGroup)[name := group] && env.consts == old(env.consts)
              && env.recOf == old(env.recOf)
      ensures LeadsBack(start, Maps(env.consts, env.recOf, env.recGroup), journal)
    {
      hide Unwound;
      var prior := Prior(env.recGroup, name);
      InsertRestored(env.recGroup, name, group);
      env.recGroup := env.recGroup[name := group];
      LeadsBackMore(start, Maps(env.consts, env.recOf, old(env.recGroup)), journal,
                    Maps(env.consts, env.recOf, env.recGroup), Group(name, prior));
      journal := journal + [Group(name, prior)];
    }

    /** Replays the journal from its end. */
    method Rollback(env: Environment<C>)
      modifies env
      ensures Maps(env.consts, env.recOf, env.recGroup)
              == Unwound(Maps(old(env.consts), old(env.recOf), old(env.recGroup)), journal)
    {
      var k := |journal|;
      assert journal[..k] == journal;
      while k > 0
        invariant k <= |journal|
        invariant Unwound(Maps(env.consts, env.recOf, env.recGroup), journal[..k])
               == Unwound(Maps(old(env.consts), old(env.recOf), old(env.recGroup)), journal)
      {
        k := k - 1;
        assert journal[..k + 1][..k] == journal[..k];
        match journal[k] {
          case Constant(name, prior) => env.consts := Restored(env.consts, name, prior);
          case Owner(name, prior) => env.recOf := Restored(env.recOf, name, prior);
          case Group(name, prior) => env.recGroup := Restored(env.recGroup, name, prior);
        }
      }
    }
  }

  // ------------------------------------------------------------- whole blocks

  datatype Insert<C> = PutConstant(name: nat, info: C) | PutOwner(name: nat, recursor: nat) | PutGroup(name: nat,
        group: seq<nat>)

  function Inserted<C>(m: Maps<C>, i: Insert<C>): Maps<C> {
    match i
    case PutConstant(name, info) => m.(consts := m.consts[name := info])
    case PutOwner(name, recursor) => m.(recOf := m.recOf[name := recursor])
    case PutGroup(name, group) => m.(recGroup := m.recGroup[name := group])
  }

  function AllInserted<C>(m: Maps<C>, inserts: seq<Insert<C>>): Maps<C>
    decreases |inserts|
  {
    if inserts == [] then m else AllInserted(Inserted(m, inserts[0]), inserts[1..])
  }

  /** What the journal records for one insert. */
  function Recorded<C>(m: Maps<C>, i: Insert<C>): Write<C> {
    match i
    case PutConstant(name, _) => Constant(name, Prior(m.consts, name))
    case PutOwner(name, _) => Owner(name, Prior(m.recOf, name))
    case PutGroup(name, _) => Group(name, Prior(m.recGroup, name))
  }

  function JournalOf<C>(m: Maps<C>, inserts: seq<Insert<C>>): seq<Write<C>>
    decreases |inserts|
  {
    if inserts == [] then [] else [Recorded(m, inserts[0])] + JournalOf(Inserted(m, inserts[0]), inserts[1..])
  }

  lemma {:induction false} UnwoundFirst<C>(m: Maps<C>, w: Write<C>, later: seq<Write<C>>)
    ensures Unwound(m, [w] + later) == TakeBack(Unwound(m, later), w)
    decreases |later|
  {
    if later == [] {
      assert [w] + later == [w];
      assert [w][..0] == [];
    } else {
      var last, front := later[|later| - 1], later[..|later| - 1];
      assert ([w] + later)[..|later|] == [w] + front;
      UnwoundFirst(TakeBack(m, last), w, front);
    }
  }

  /** Whatever was inserted, and however often under one name, unwinding its journal gives back the maps exactly. */
  lemma {:induction false} RollbackExact<C>(m: Maps<C>, inserts: seq<Insert<C>>)
    ensures Unwound(AllInserted(m, inserts), JournalOf(m, inserts)) == m
    decreases |inserts|
  {
    if inserts != [] {
      var i := inserts[0];
      RollbackExact(Inserted(m, i), inserts[1..]);
      UnwoundFirst(AllInserted(m, inserts), Recorded(m, i), JournalOf(Inserted(m, i), inserts[1..]));
      match i
      case PutConstant(name, info) => InsertRestored(m.consts, name, info);
      case PutOwner(name, recursor) => InsertRestored(m.recOf, name, recursor);
      case PutGroup(name, group) => InsertRestored(m.recGroup, name, group);
    }
  }

  /** One block: its inserts in order, names repeated or not, taken back if the block is rejected. */
  method Block<C>(env: Environment<C>, inserts: seq<Insert<C>>, accept: bool)
    modifies env
    ensures Maps(env.consts, env.recOf, env.recGroup)
         == if accept then AllInserted(Maps(old(env.consts), old(env.recOf), old(env.recGroup)), inserts)
            else Maps(old(env.consts), old(env.recOf), old(env.recGroup))
  {
    hide LeadsBack, Unwound;
    var undo := new InductiveUndo<C>();
    ghost var start := Maps(env.consts, env.recOf, env.recGroup);
    NothingToUndo(start);
    for k := 0 to |inserts|
      invariant LeadsBack(start, Maps(env.consts, env.recOf, env.recGroup), undo.journal)
      invariant AllInserted(Maps(env.consts, env.recOf, env.recGroup), inserts[k..]) == AllInserted(start, inserts)
    {
      assert inserts[k..][1..] == inserts[k + 1..];
      match inserts[k] {
        case PutConstant(name, info) => undo.InsertConstant(env, name, info, start);
        case PutOwner(name, recursor) => undo.InsertOwner(env, name, recursor, start);
        case PutGroup(name, group) => undo.InsertGroup(env, name, group, start);
      }
    }
    if !accept {
      Back(start, Maps(env.consts, env.recOf, env.recGroup), undo.journal);
      undo.Rollback(env);
    }
  }

  lemma NothingToUndo<C>(m: Maps<C>)
    ensures LeadsBack(m, m, [])
  {}

  lemma Back<C>(start: Maps<C>, now: Maps<C>, journal: seq<Write<C>>)
    requires LeadsBack(start, now, journal)
    ensures Unwound(now, journal) == start
  {}

  /** The last of the inserts to concern `name` in one of the maps, as far as that map goes. */
  ghost predicate LastPut<C>(inserts: seq<Insert<C>>, k: nat, i: Insert<C>) {
    k < |inserts| && inserts[k] == i && forall j :: k < j < |inserts| ==> !SamePlace(inserts[j], i)
  }

  predicate SamePlace<C>(i: Insert<C>, j: Insert<C>) {
    i.name == j.name && i.PutConstant? == j.PutConstant? && i.PutOwner? == j.PutOwner?
  }

  /** What one of the maps answers for the place an insert concerns, as an insert. */
  predicate Answers<C(==)>(m: Maps<C>, i: Insert<C>) {
    match i
    case PutConstant(name, info) => name in m.consts && m.consts[name] == info
    case PutOwner(name, recursor) => name in m.recOf && m.recOf[name] == recursor
    case PutGroup(name, group) => name in m.recGroup && m.recGroup[name] == group
  }

  /** After any inserts, each place answers the last one made there, and a place none was made at what it did. */
  lemma {:induction false} InsertsRead<C>(m: Maps<C>, inserts: seq<Insert<C>>, i: Insert<C>)
    ensures Answers(AllInserted(m, inserts), i)
       <==> if exists k :: 0 <= k < |inserts| && SamePlace(inserts[k], i) then exists k :: LastPut(inserts, k, i)
            else Answers(m, i)
    decreases |inserts|
  {
    if inserts != [] {
      var rest := inserts[1..];
      InsertsRead(Inserted(m, inserts[0]), rest, i);
      assert forall k :: 0 <= k < |rest| ==> rest[k] == inserts[k + 1];
      if k :| 0 <= k < |rest| && SamePlace(rest[k], i) {
        assert SamePlace(inserts[k + 1], i);
        if l: nat :| LastPut(rest, l, i) { assert LastPut(inserts, l + 1, i); }
        if l: nat :| LastPut(inserts, l, i) { assert l > 0 && LastPut(rest, l - 1, i); }
      } else if SamePlace(inserts[0], i) {
        if inserts[0] == i { assert LastPut(inserts, 0, i); }
        if l: nat :| LastPut(inserts, l, i) { assert l == 0; }
      }
    }
  }
}
