/**
 When the expansion comes to an end. It does exactly when it is refused or the occurrences
 it can meet are finitely many. A prior type whose constructor applies the type to a changed
 parameter calls for one specialisation after another, without end: such a type is refused
 when it is declared, and nothing in the expansion itself rules it out.
 */
module Ending {
  import opened Terms
  import opened Recursor
  import opened Nested
  import opened Expansion
  import L = Levels

  // ------------------------------------------------------ finitely many occurrences

  /** An occurrence carries the group and the parameter count of its type. */
  ghost predicate FromEnv(env: Env, o: Occurrence) {
    o.source in env.types && o.all == env.types[o.source].all && o.np == env.types[o.source].np
  }

  /** Every type is listed in its own group. */
  ghost predicate SelfListed(env: Env) { forall n :: n in env.types ==> n in env.types[n].all }

  ghost predicate Within(evs: seq<Result<Occurrence>>, all: set<Occurrence>) {
    forall k :: 0 <= k < |evs| && evs[k].Ok? ==> evs[k].value in all
  }

  ghost predicate MembersWithin(names: seq<nat>, env: Env, np: nat, ms: seq<Member>, all: set<Occurrence>) {
    forall k :: 0 <= k < |ms| ==> Within(MemberEvents(names, env, np, ms[k]), all)
  }

  /** A finite set holding every occurrence in the members, and every one in a copy made for an
      occurrence of the set. */
  ghost predicate Closed(names: seq<nat>, env: Env, np: nat, params: seq<Binder>, ms: seq<Member>, all: set<Occurrence>)
  {
    MembersWithin(names, env, np, ms, all)
    && forall o :: o in all ==>
       FromEnv(env, o) && (Addable(env, o) ==> MembersWithin(names, env, np, Copies(env, o, params), all))
  }

  /** The occurrences of the set that have no member yet. */
  ghost function Open(ms: seq<Member>, all: set<Occurrence>): set<Occurrence> { set o | o in all && !HasMember(ms, o) }

  lemma OneWithin(names: seq<nat>, env: Env, np: nat, params: seq<Binder>, ms: seq<Member>, all: set<Occurrence>,
                  ev: Result<Occurrence>)
    requires SelfListed(env) && Closed(names, env, np, params, ms, all) && (ev.Ok? ==> ev.value in all)
    requires AddOne(env, params, ms, ev).Ok?
    ensures var after := AddOne(env, params, ms, ev).value;
            Closed(names, env, np, params, after, all) && (after == ms || Open(after, all) < Open(ms, all))
            && HasMember(after, ev.value)
  {
    hide MemberEvents, Copyable, CopiedMember, Within, SelfListed;
    var o := ev.value;
    assert o.source in o.all by { assert FromEnv(env, o); ListedIn(env, o.source); }
    if !HasMember(ms, o) {
      var after := ms + Copies(env, o, params);
      var k :| 0 <= k < |o.all| && o.all[k] == o.source;
      assert Copyable(env, o.all[k], o);
      assert MemberFor(env, o.source, o, params, after[|ms| + k]);
      assert HasMember(after, o);
      forall x | HasMember(ms, x) ensures HasMember(after, x) {
        var j :| 0 <= j < |ms| && ms[j].source == x.source && ms[j].levels == x.levels
          && ms[j].fixedParams == x.fixedParams;
        assert after[j] == ms[j];
      }
      assert o in Open(ms, all) && o !in Open(after, all);
      forall j | 0 <= j < |after| ensures Within(MemberEvents(names, env, np, after[j]), all) {
        if j >= |ms| { assert after[j] == Copies(env, o, params)[j - |ms|]; }
      }
    }
  }

  lemma ListedIn(env: Env, n: nat)
    requires SelfListed(env) && n in env.types
    ensures n in env.types[n].all
  {}

  lemma {:induction false} AllWithin(names: seq<nat>, env: Env, np: nat, params: seq<Binder>, ms: seq<Member>,
                                     all: set<Occurrence>,
                                     evs: seq<Result<Occurrence>>)
    requires SelfListed(env) && Closed(names, env, np, params, ms, all) && Within(evs, all)
    requires AddAll(env, params, ms, evs).Ok?
    ensures var after := AddAll(env, params, ms, evs).value;
            Closed(names, env, np, params, after, all) && (after == ms || Open(after, all) < Open(ms, all))
    decreases |evs|
  {
    hide Closed, SelfListed, AddOne, Open;
    if evs != [] {
      assert forall k :: 0 <= k < |evs[1..]| ==> evs[1..][k] == evs[k + 1];
      OneWithin(names, env, np, params, ms, all, evs[0]);
      AllWithin(names, env, np, params, AddOne(env, params, ms, evs[0]).value, all, evs[1..]);
    }
  }

  /** With finitely many occurrences to meet, some fuel is enough. */
  lemma {:induction false} EndsWithin(names: seq<nat>, env: Env, np: nat, params: seq<Binder>, ms: seq<Member>,
                                      qhead: nat,
                                      all: set<Occurrence>) returns (fuel: nat)
    requires SelfListed(env) && Closed(names, env, np, params, ms, all) && qhead <= |ms|
    ensures ExpandFrom(names, env, np, params, ms, qhead, fuel).1
    decreases Open(ms, all), |ms| - qhead
  {
    hide SelfListed, AddAll, MemberEvents, Open;
    fuel := 0;
    if qhead < |ms| {
      fuel := 1;
      var evs := MemberEvents(names, env, np, ms[qhead]);
      var next := AddAll(env, params, ms, evs);
      if next.Ok? {
        AllWithin(names, env, np, params, ms, all, evs);
        var rest := EndsWithin(names, env, np, params, next.value, qhead + 1, all);
        fuel := rest + 1;
      }
    }
  }

  // ---------------------------------------------------- what a finished expansion shows

  /** What a copied member was made for. */
  ghost function MadeAs(env: Env, m: Member): Occurrence
    requires m.source in env.types
  {
    Occurrence(m.source, m.levels, m.fixedParams, env.types[m.source].all, env.types[m.source].np)
  }

  /** From position `from` on, members come in whole groups of copies. */
  ghost predicate WholeGroups(env: Env, params: seq<Binder>, ms: seq<Member>, from: nat) {
    forall k :: from <= k < |ms| ==> ms[k].source in env.types && WholeGroup(env, params, ms, MadeAs(env, ms[k]))
  }

  ghost predicate WholeGroup(env: Env, params: seq<Binder>, ms: seq<Member>, o: Occurrence) {
    Addable(env, o) && forall k :: 0 <= k < |o.all| ==> CopiedMember(env, o.all[k], o, params) in ms
  }

  lemma WholeAfter(env: Env, params: seq<Binder>, ms: seq<Member>, ev: Result<Occurrence>, from: nat)
    requires WholeGroups(env, params, ms, from) && AddOne(env, params, ms, ev).Ok? && from <= |ms|
    ensures WholeGroups(env, params, AddOne(env, params, ms, ev).value, from)
  {
    hide CtorFor, Copyable;
    var o := ev.value;
    if !HasMember(ms, o) {
      var copies := Copies(env, o, params);
      var after := ms + copies;
      forall k | from <= k < |after|
        ensures after[k].source in env.types && WholeGroup(env, params, after, MadeAs(env, after[k]))
      {
        if k < |ms| {
          assert after[k] == ms[k];
          forall j | 0 <= j < |MadeAs(env, ms[k]).all|
            ensures CopiedMember(env, MadeAs(env, ms[k]).all[j], MadeAs(env, ms[k]), params) in after {}
        } else {
          CopyWhole(env, params, o, k - |ms|, after);
        }
      }
    }
  }

  /** A copy's group is the group its occurrence asked for. */
  lemma CopyWhole(env: Env, params: seq<Binder>, o: Occurrence, k: nat, after: seq<Member>)
    requires Addable(env, o) && k < |o.all| && forall m :: m in Copies(env, o, params) ==> m in after
    ensures var m := Copies(env, o, params)[k];
            m.source in env.types && WholeGroup(env, params, after, MadeAs(env, m))
  {
    var m := Copies(env, o, params)[k];
    assert Copyable(env, o.all[k], o);
    var made := MadeAs(env, m);
    assert made.all == o.all && made.np == o.np && made.levels == o.levels && made.fixedParams == o.fixedParams;
    forall j | 0 <= j < |o.all|
      ensures Copyable(env, made.all[j], made) && CopiedMember(env, made.all[j], made, params) in after
    {
      CopyableAlike(env, o.all[j], o, made);
      assert Copyable(env, o.all[j], o);
      CopiedAlike(env, o.all[j], o, made, params);
      assert Copies(env, o, params)[j] in Copies(env, o, params);
    }
  }

  lemma CopiedAlike(env: Env, name: nat, a: Occurrence, b: Occurrence, params: seq<Binder>)
    requires a.levels == b.levels && a.fixedParams == b.fixedParams && a.all == b.all && a.np == b.np
    requires Copyable(env, name, a) && Copyable(env, name, b)
    ensures CopiedMember(env, name, a, params) == CopiedMember(env, name, b, params)
  {
    hide Specialized;
    MemberForOne(env, name, a, params, CopiedMember(env, name, a, params), CopiedMember(env, name, b, params));
  }

  /** Every occurrence is of a type of the environment that is not being declared. */
  ghost predicate Foreign(names: seq<nat>, env: Env, evs: seq<Result<Occurrence>>) {
    forall k :: 0 <= k < |evs| && evs[k].Ok? ==> FromEnv(env, evs[k].value) && evs[k].value.source !in names
  }

  lemma {:induction false} OutermostForeign(names: seq<nat>, env: Env, e: Term, depth: nat)
    ensures Foreign(names, env, Outermost(names, env, e, depth))
  {
    hide HasBVarInRange, Mentions, Shift, UnfoldApps;
    match e
    case App(f, x) => OutermostForeign(names, env, f, depth); OutermostForeign(names, env, x, depth);
    case Lam(_, ty, body) => OutermostForeign(names, env, ty, depth); OutermostForeign(names, env, body, depth + 1);
    case Pi(_, ty, body) => OutermostForeign(names, env, ty, depth); OutermostForeign(names, env, body, depth + 1);
    case Let(ty, val, body) =>
      OutermostForeign(names, env, ty, depth);
      OutermostForeign(names, env, val, depth);
      OutermostForeign(names, env, body, depth + 1);
    case Proj(_, _, v) => OutermostForeign(names, env, v, depth);
    case _ =>
  }

  lemma {:induction false} CtorsForeign(names: seq<nat>, env: Env, np: nat, cs: seq<Ctor>, k: nat)
    requires k <= |cs|
    ensures Foreign(names, env, CtorEvents(names, env, np, cs, k))
  {
    hide Outermost, FromEnv;
    if k > 0 {
      CtorsForeign(names, env, np, cs, k - 1);
      if HasPis(cs[k - 1].typ, np) { OutermostForeign(names, env, Peel(cs[k - 1].typ, np), 0); }
    }
  }

  /** Every event is an occurrence that has its member. */
  ghost predicate AllHave(ms: seq<Member>, evs: seq<Result<Occurrence>>) {
    forall k :: 0 <= k < |evs| ==> evs[k].Ok? && HasMember(ms, evs[k].value)
  }

  lemma HasMore(ms: seq<Member>, more: seq<Member>, o: Occurrence)
    requires ms <= more && HasMember(ms, o)
    ensures HasMember(more, o)
  {
    var k :| 0 <= k < |ms| && ms[k].source == o.source && ms[k].levels == o.levels
      && ms[k].fixedParams == o.fixedParams;
    assert more[k] == ms[k];
  }

  lemma AddedHas(env: Env, params: seq<Binder>, ms: seq<Member>, ev: Result<Occurrence>)
    requires SelfListed(env) && AddOne(env, params, ms, ev).Ok? && FromEnv(env, ev.value)
    ensures HasMember(AddOne(env, params, ms, ev).value, ev.value)
  {
    var o := ev.value;
    hide Copyable, CtorFor;
    if !HasMember(ms, o) {
      ListedIn(env, o.source);
      var k :| 0 <= k < |o.all| && o.all[k] == o.source;
      var after := ms + Copies(env, o, params);
      assert after[|ms| + k] == CopiedMember(env, o.all[k], o, params);
      assert MemberFor(env, o.source, o, params, after[|ms| + k]);
    }
  }

  lemma {:induction false} AllAdded(names: seq<nat>, env: Env, params: seq<Binder>, ms: seq<Member>,
                                    evs: seq<Result<Occurrence>>, from: nat)
    requires SelfListed(env) && Foreign(names, env, evs) && WholeGroups(env, params, ms, from) && from <= |ms|
    requires AddAll(env, params, ms, evs).Ok?
    ensures var after := AddAll(env, params, ms, evs).value;
            AllHave(after, evs) && WholeGroups(env, params, after, from)
    decreases |evs|
  {
    hide SelfListed, FromEnv, AddOne, HasMember, WholeGroups;
    if evs != [] {
      assert forall k :: 0 <= k < |evs[1..]| ==> evs[1..][k] == evs[k + 1];
      var first := AddOne(env, params, ms, evs[0]);
      RefusedEvent(env, params, ms, evs[0]);
      AddedHas(env, params, ms, evs[0]);
      WholeAfter(env, params, ms, evs[0], from);
      AllAdded(names, env, params, first.value, evs[1..], from);
      var after := AddAll(env, params, ms, evs).value;
      HasMore(first.value, after, evs[0].value);
      forall k | 0 <= k < |evs| ensures evs[k].Ok? && HasMember(after, evs[k].value) {
        if k > 0 { assert evs[k] == evs[1..][k - 1]; }
      }
    }
  }

  lemma RefusedEvent(env: Env, params: seq<Binder>, ms: seq<Member>, ev: Result<Occurrence>)
    ensures AddOne(env, params, ms, ev).Ok? ==> ev.Ok?
  {}

  /** When the queue is worked off, every occurrence in every member has its member. */
  lemma {:induction false} FinishedHas(names: seq<nat>, env: Env, np: nat, params: seq<Binder>, ms: seq<Member>,
                                       qhead: nat, fuel: nat,
                                       from: nat)
    requires SelfListed(env) && qhead <= |ms| && from <= |ms| && WholeGroups(env, params, ms, from)
    requires forall k :: 0 <= k < qhead ==> AllHave(ms, MemberEvents(names, env, np, ms[k]))
    requires ExpandFrom(names, env, np, params, ms, qhead, fuel).0.Ok?
             && ExpandFrom(names, env, np, params, ms, qhead, fuel).1
    ensures var end := ExpandFrom(names, env, np, params, ms, qhead, fuel).0.value;
            WholeGroups(env, params, end, from)
            && forall k :: 0 <= k < |end| ==> AllHave(end, MemberEvents(names, env, np, end[k]))
    decreases fuel
  {
    hide SelfListed, WholeGroups, AddAll, MemberEvents, AllHave, Foreign;
    if qhead < |ms| {
      var evs := MemberEvents(names, env, np, ms[qhead]);
      var next := AddAll(env, params, ms, evs).value;
      MemberForeign(names, env, np, ms[qhead]);
      AllAdded(names, env, params, ms, evs, from);
      forall k | 0 <= k < qhead + 1 ensures AllHave(next, MemberEvents(names, env, np, next[k])) {
        if k < qhead { AllHaveMore(ms, next, MemberEvents(names, env, np, ms[k])); }
      }
      FinishedHas(names, env, np, params, next, qhead + 1, fuel - 1, from);
    }
  }

  lemma MemberForeign(names: seq<nat>, env: Env, np: nat, m: Member)
    ensures Foreign(names, env, MemberEvents(names, env, np, m))
  {
    CtorsForeign(names, env, np, m.ctors, |m.ctors|);
  }

  lemma AllHaveMore(ms: seq<Member>, more: seq<Member>, evs: seq<Result<Occurrence>>)
    requires ms <= more && AllHave(ms, evs)
    ensures AllHave(more, evs)
  {
    forall k | 0 <= k < |evs| ensures HasMember(more, evs[k].value) { HasMore(ms, more, evs[k].value); }
  }

  /** The occurrences in the first `k` members. */
  ghost function Met(names: seq<nat>, env: Env, np: nat, ms: seq<Member>, k: nat): set<Occurrence>
    requires k <= |ms|
  {
    if k == 0 then {}
    else
      var evs := MemberEvents(names, env, np, ms[k - 1]);
      Met(names, env, np, ms, k - 1) + set j | 0 <= j < |evs| && evs[j].Ok? :: evs[j].value
  }

  lemma {:induction false} MetExactly(names: seq<nat>, env: Env, np: nat, ms: seq<Member>, k: nat)
    requires k <= |ms| && forall i :: 0 <= i < |ms| ==> AllHave(ms, MemberEvents(names, env, np, ms[i]))
    ensures forall i :: 0 <= i < k ==> Within(MemberEvents(names, env, np, ms[i]), Met(names, env, np, ms, k))
    ensures forall o :: o in Met(names, env, np, ms, k) ==> FromEnv(env, o) && o.source !in names && HasMember(ms, o)
  {
    hide MemberEvents, FromEnv, HasMember;
    if k > 0 {
      MetExactly(names, env, np, ms, k - 1);
      MemberForeign(names, env, np, ms[k - 1]);
      assert AllHave(ms, MemberEvents(names, env, np, ms[k - 1]));
    }
  }

  /** A finished expansion has met a closed set of occurrences. */
  lemma FinishedClosed(names: seq<nat>, env: Env, np: nat, params: seq<Binder>, ms: seq<Member>, fuel: nat)
    returns (all: set<Occurrence>)
    requires SelfListed(env) && forall k :: 0 <= k < |ms| ==> ms[k].source in names
    requires ExpandFrom(names, env, np, params, ms, 0, fuel).0.Ok? && ExpandFrom(names, env, np, params, ms, 0, fuel).1
    ensures Closed(names, env, np, params, ms, all)
  {
    hide SelfListed, MemberEvents, AllHave, FromEnv, Addable, CopiedMember, Within;
    var end := ExpandFrom(names, env, np, params, ms, 0, fuel).0.value;
    FinishedHas(names, env, np, params, ms, 0, fuel, |ms|);
    all := Met(names, env, np, end, |end|);
    MetExactly(names, env, np, end, |end|);
    assert MembersWithin(names, env, np, ms, all) by {
      forall k | 0 <= k < |ms| ensures Within(MemberEvents(names, env, np, ms[k]), all) { assert ms[k] == end[k]; }
    }
    assert forall i :: 0 <= i < |ms| ==> end[i] == ms[i];
    forall o | o in all && Addable(env, o) ensures MembersWithin(names, env, np, Copies(env, o, params), all) {
      var k :| 0 <= k < |end| && end[k].source == o.source && end[k].levels == o.levels
        && end[k].fixedParams == o.fixedParams;
      MadeAgain(env, end[k], o);
      assert WholeGroup(env, params, end, o);
      forall j | 0 <= j < |o.all| ensures Within(MemberEvents(names, env, np, Copies(env, o, params)[j]), all) {
        AddableAt(env, o, j);
        assert Copies(env, o, params)[j] == CopiedMember(env, o.all[j], o, params);
        assert CopiedMember(env, o.all[j], o, params) in end;
      }
    }
  }

  lemma AddableAt(env: Env, o: Occurrence, j: nat)
    requires Addable(env, o) && j < |o.all|
    ensures Copyable(env, o.all[j], o)
  {}

  lemma MadeAgain(env: Env, m: Member, o: Occurrence)
    requires FromEnv(env, o) && m.source == o.source && m.levels == o.levels && m.fixedParams == o.fixedParams
    ensures m.source in env.types && MadeAs(env, m) == o
  {}

  /** The expansion of declared types comes to an end if and only if it is refused at some point or the occurrences
      it can meet are within a finite closed set. */
  lemma EndsExactly(names: seq<nat>, env: Env, np: nat, params: seq<Binder>, ms: seq<Member>)
    requires SelfListed(env) && forall k :: 0 <= k < |ms| ==> ms[k].source in names
    ensures (exists fuel :: ExpandFrom(names, env, np, params, ms, 0, fuel).1)
            <==> (exists fuel :: ExpandFrom(names, env, np, params, ms, 0, fuel).0.Err?)
                 || exists all :: Closed(names, env, np, params, ms, all)
  {
    hide SelfListed, Closed;
    if fuel :| ExpandFrom(names, env, np, params, ms, 0, fuel).1 {
      if ExpandFrom(names, env, np, params, ms, 0, fuel).0.Ok? {
        var all := FinishedClosed(names, env, np, params, ms, fuel);
      }
    }
    if all :| Closed(names, env, np, params, ms, all) {
      var fuel := EndsWithin(names, env, np, params, ms, 0, all);
    }
    if fuel :| ExpandFrom(names, env, np, params, ms, 0, fuel).0.Err? {
      RefusedEnds(names, env, np, params, ms, 0, fuel);
    }
  }

  lemma {:induction false} RefusedEnds(names: seq<nat>, env: Env, np: nat, params: seq<Binder>, ms: seq<Member>,
                                       qhead: nat, fuel: nat)
    requires qhead <= |ms| && ExpandFrom(names, env, np, params, ms, qhead, fuel).0.Err?
    ensures ExpandFrom(names, env, np, params, ms, qhead, fuel).1
    decreases fuel
  {
    hide AddAll, MemberEvents;
    if qhead < |ms| && fuel > 0 {
      var next := AddAll(env, params, ms, MemberEvents(names, env, np, ms[qhead]));
      if next.Ok? { RefusedEnds(names, env, np, params, next.value, qhead + 1, fuel - 1); }
    }
  }

  // ------------------------------------------------------------------ no end

  // Names: 0 is the type being declared, 1 the prior type, 2 a constant, 3 and 4 constructors of 1 and 0.

  function At(p: Term): Term { App(Const(1, []), p) }

  /** `2 (2 (... 0))`. */
  function Tower(k: nat): Term { if k == 0 then Const(0, []) else App(Const(2, []), Tower(k - 1)) }

  function PriorCtor(): Term {
    Pi(Default, Sort(L.Zero), Pi(Default, At(App(Const(2, []), BVar(0))), At(BVar(1))))
  }

  function PriorEnv(): Env {
    Env(map[1 := Inductive([], Pi(Default, Sort(L.Zero), Sort(L.Zero)), 1, 0, [3], [1])],
        map[3 := Constructor([], PriorCtor(), 1)])
  }

  function Declared(): Member {
    Member(0, [], [], Sort(L.Zero), 0, [Ctor(4, [], Pi(Default, At(Tower(0)), Const(0, [])))])
  }

  /** The prior type at the `k`-th parameter: its constructor asks for the next one. */
  function Copy(k: nat): Member {
    Member(1, [], [Tower(k)], Sort(L.Zero), 0, [Ctor(3, [], Pi(Default, At(Tower(k + 1)), At(Tower(k))))])
  }

  function Chain(k: nat): (r: seq<Member>)
    ensures |r| == k + 1 && r[0] == Declared() && forall j :: 0 <= j < k ==> r[j + 1] == Copy(j)
  {
    if k == 0 then [Declared()] else Chain(k - 1) + [Copy(k - 1)]
  }

  function Asks(k: nat): Occurrence { Occurrence(1, [], [Tower(k)], [1], 1) }

  lemma {:induction false} TowerFacts(k: nat, off: int, args: seq<Term>, lo: nat, hi: nat, inner: nat)
    ensures Loose(Tower(k)) == 0 && Mentions(Tower(k), [0]) && !HasBVarInRange(Tower(k), lo, hi, inner)
    ensures Shift(Tower(k), off, inner) == Tower(k) && InstAt(Tower(k), args, inner) == Tower(k)
  {
    if k > 0 { TowerFacts(k - 1, off, args, lo, hi, inner); }
  }

  lemma {:induction false} TowersApart(j: nat, k: nat)
    requires Tower(j) == Tower(k)
    ensures j == k
  {
    if j > 0 && k > 0 { TowersApart(j - 1, k - 1); }
  }

  lemma AskedAt(k: nat, depth: nat)
    ensures NamedOccurrence([0], PriorEnv(), At(Tower(k)), depth) == Ok(Some(Asks(k)))
  {
    TowerFacts(k, 0 - depth, [], 0, depth, 0);
    AtUnfolds(Tower(k));
    PriorKnown();
    hide Tower, Mentions, HasBVarInRange, Shift, UnfoldApps, PriorEnv, NamedOccurrence;
    SingleNamed([0], PriorEnv(), At(Tower(k)), depth, Tower(k));
  }

  /** An application of a prior type of one parameter to a term that mentions a declared name. */
  lemma SingleNamed(names: seq<nat>, env: Env, e: Term, depth: nat, p: Term)
    requires e.App? && UnfoldApps(e) == (Const(1, []), [p]) && 1 !in names && 1 in env.types && env.types[1].np == 1
    requires Mentions(p, names) && !HasBVarInRange(p, 0, depth, 0)
    ensures NamedOccurrence(names, env, e, depth)
         == Ok(Some(Occurrence(1, [], [Shift(p, 0 - depth, 0)], env.types[1].all, 1)))
  {
    hide Mentions, HasBVarInRange, Shift, UnfoldApps;
    var params := UnfoldApps(e).1[..1];
    assert params == [p] && params[0] == p;
    assert LowerAll(params, depth) == [Shift(p, 0 - depth, 0)];
  }

  lemma PriorKnown()
    ensures 1 in PriorEnv().types && PriorEnv().types[1].np == 1 && PriorEnv().types[1].all == [1]
  {}

  lemma AtUnfolds(p: Term)
    ensures UnfoldApps(At(p)) == (Const(1, []), [p])
  {
    var none: seq<Term> := [];
    assert none + [p] == [p];
    assert UnfoldApps(At(p).f) == (Const(1, []), []);
  }

  lemma CopyMade(k: nat)
    ensures Addable(PriorEnv(), Asks(k)) && Copies(PriorEnv(), Asks(k), []) == [Copy(k)]
  {
    var env, o := PriorEnv(), Asks(k);
    assert Copyable(env, 1, o);
    CtorMade(k);
    TypeMade(k);
    assert CopiedMember(env, 1, o, []).ctors == Copy(k).ctors;
    assert Copies(env, o, [])[0] == Copy(k);
  }

  lemma TypeMade(k: nat)
    ensures Specialized(Pi(Default, Sort(L.Zero), Sort(L.Zero)), [], [], 1, [Tower(k)], []) == Ok(Sort(L.Zero))
  {
    var t := Pi(Default, Sort(L.Zero), Sort(L.Zero));
    assert [Tower(k)][1..] == [];
    assert InstLevelParams(t, map[]) == t;
    assert ApplyPis(t, [Tower(k)]) == ApplyPis(Sort(L.Zero), []);
  }

  lemma CtorMade(k: nat)
    ensures Specialized(PriorCtor(), [], [], 1, [Tower(k)], []) == Ok(Copy(k).ctors[0].typ)
  {
    var c, args := PriorCtor(), [Tower(k)];
    TowerFacts(k, 0, [], 0, 0, 0);
    TowerFacts(k, 1, [], 0, 0, 0);
    assert args[1..] == [];
    assert InstLevels([], map[]) == [];
    assert InstLevelParams(c, map[]) == c;
    assert InstAt(BVar(0), args, 0) == Tower(k);
    assert InstAt(App(Const(2, []), BVar(0)), args, 0) == Tower(k + 1);
    assert InstAt(At(App(Const(2, []), BVar(0))), args, 0) == At(Tower(k + 1));
    assert InstAt(At(BVar(1)), args, 1) == At(Tower(k));
    assert ApplyPis(c, args) == ApplyPis(Inst1(c.body, Tower(k)), []);
  }

  /** Scanning the member at the head of the queue adds exactly one more. */
  lemma ChainGrows(k: nat)
    ensures AddAll(PriorEnv(), [], Chain(k), MemberEvents([0], PriorEnv(), 0, Chain(k)[k])) == Ok(Chain(k + 1))
  {
    var env := PriorEnv();
    ChainEvents(k);
    CopyMade(k);
    NotYet(k);
    hide MemberEvents, Copies, Addable, PriorEnv, Tower;
    var evs := MemberEvents([0], env, 0, Chain(k)[k]);
    assert evs[0] == Ok(Asks(k)) && AddOne(env, [], Chain(k), evs[0]) == Ok(Chain(k + 1));
    if k == 0 {
      assert evs[1..] == [];
    } else {
      assert evs[1..] == [Ok(Asks(k - 1))];
      NothingNew(env, k);
    }
  }

  /** The parameter a copy was made for is known by then. */
  lemma NothingNew(env: Env, k: nat)
    requires k > 0
    ensures AddAll(env, [], Chain(k + 1), [Ok(Asks(k - 1))]) == Ok(Chain(k + 1))
  {
    hide Tower, Addable, Copies;
    var evs: seq<Result<Occurrence>> := [Ok(Asks(k - 1))];
    assert Chain(k + 1)[k] == Copy(k - 1);
    assert HasMember(Chain(k + 1), Asks(k - 1));
    assert evs[1..] == [];
  }

  lemma NotYet(k: nat)
    ensures !HasMember(Chain(k), Asks(k))
  {
    forall j | 0 <= j < |Chain(k)| ensures Chain(k)[j].source != 1 || Chain(k)[j].fixedParams != [Tower(k)] {
      if j > 0 {
        assert Chain(k)[j] == Copy(j - 1) && Copy(j - 1).fixedParams[0] == Tower(j - 1);
        if Tower(j - 1) == Tower(k) { TowersApart(j - 1, k); }
      }
    }
  }

  lemma ChainEvents(k: nat)
    ensures MemberEvents([0], PriorEnv(), 0, Chain(k)[k]) == if k == 0 then [Ok(Asks(0))]
            else [Ok(Asks(k)), Ok(Asks(k - 1))]
  {
    var env, c := PriorEnv(), Chain(k)[k].ctors[0];
    AskedAt(k, 0);
    if k > 0 {
      assert Chain(k)[k] == Copy(k - 1);
      AskedAt(k - 1, 1);
    }
    hide NamedOccurrence, Tower;
    assert CtorEvents([0], env, 0, [c], 0) == [];
    assert NamedOccurrence([0], env, c.typ, 0) == Ok(None) by { NoApp(env, c.typ, 0); }
    if k == 0 { NoApp(env, Const(0, []), 1); }
    assert OneCtorEvents([0], env, 0, c) == Outermost([0], env, c.typ.ty, 0) + Outermost([0], env, c.typ.body, 1);
  }

  lemma NoApp(env: Env, e: Term, depth: nat)
    requires !e.App?
    ensures NamedOccurrence([0], env, e, depth) == Ok(None)
  {}

  /** Whatever the fuel, there is one more member than has been scanned. */
  lemma {:induction false} NeverDone(k: nat, fuel: nat)
    ensures ExpandFrom([0], PriorEnv(), 0, [], Chain(k), k, fuel) == (Ok(Chain(k + fuel)), false)
    decreases fuel
  {
    hide AddAll, MemberEvents, Chain;
    if fuel > 0 {
      ChainGrows(k);
      NeverDone(k + 1, fuel - 1);
    }
  }

  function Start(defEq: DefEq): Group { Group([0], [Declared()], 0, defEq) }

  /** The expansion accepts this group and never comes to its end. */
  method ExpandForever(defEq: DefEq, fuel: nat) returns (r: Result<Group>, done: bool)
    ensures r.Ok? && r.value.members == Chain(fuel) && !done
  {
    hide *;
    StartsScoped(defEq);
    StartsCourse(defEq, fuel);
    ghost var reached, scanned;
    r, done, reached, scanned := ExpandNestedMembers(Start(defEq), PriorEnv(), [], fuel);
    Ends(r, Chain(fuel));
  }

  lemma StartsScoped(defEq: DefEq)
    ensures ClosedEnv(PriorEnv()) && TelescopeIn([], 0) && Start(defEq).np == 0
    ensures WellScoped(Start(defEq)) && Grounded(Start(defEq))
  {
    PriorClosed();
    hide PriorEnv, ClosedEnv, Mentions;
  }

  lemma PriorClosed()
    ensures ClosedEnv(PriorEnv())
  {
    assert Loose(PriorCtor()) == 0;
  }

  lemma StartsCourse(defEq: DefEq, fuel: nat)
    ensures var g := Start(defEq);
            ExpandFrom(g.names, PriorEnv(), g.np, [], g.members, 0, fuel) == (Ok(Chain(fuel)), false)
  {
    hide ExpandFrom, PriorEnv, Declared, AddAll, MemberEvents;
    assert Chain(0) == [Declared()];
    NeverDone(0, fuel);
  }

  lemma Ends(r: Result<Group>, members: seq<Member>)
    requires Agree(MembersOf(r), Ok(members))
    ensures r.Ok? && r.value.members == members
  {}
}
