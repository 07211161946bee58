/**
 The expansion of a group: constructors are scanned breadth first, and every outermost
 nested occurrence met becomes a member, so that in the end each of them is recognised.
 */
module Expansion {
  import opened Terms
  import opened Recursor
  import opened Nested

  // ------------------------------------------------------------------ scanning

  /** Some member of the group is recognised at `e`. */
  ghost predicate Recognised(members: seq<Member>, e: Term, np: nat, depth: nat) {
    exists k :: 0 <= k < |members| && PrefixMatches(members[k], e, np, np + depth).Some?
  }

  /** Wherever in `e` an outermost occurrence stands, a member is recognised at that very subterm. */
  ghost predicate Covered(members: seq<Member>, names: seq<nat>, env: Env, e: Term, np: nat, depth: nat) {
    var o := NamedOccurrence(names, env, e, depth);
    if o.Err? then false
    else if o.value.Some? then o.value.value.source in o.value.value.all ==> Recognised(members, e, np, depth)
    else
      match e
      case App(f, x) => Covered(members, names, env, f, np, depth) && Covered(members, names, env, x, np, depth)
      case Lam(_, ty, body) =>
        Covered(members, names, env, ty, np, depth) && Covered(members, names, env, body, np, depth + 1)
      case Pi(_, ty, body) =>
        Covered(members, names, env, ty, np, depth) && Covered(members, names, env, body, np, depth + 1)
      case Let(ty, val, body) =>
        Covered(members, names, env, ty, np, depth) && Covered(members, names, env, val, np, depth)
        && Covered(members, names, env, body, np, depth + 1)
      case Proj(_, _, v) => Covered(members, names, env, v, np, depth)
      case _ => true
  }

  lemma NamedRecognised(members: seq<Member>, names: seq<nat>, env: Env, e: Term, np: nat, depth: nat)
    requires Loose(e) <= np + depth && NamedOccurrence(names, env, e, depth).Ok?
             && NamedOccurrence(names, env, e, depth).value.Some?
    requires HasMember(members, NamedOccurrence(names, env, e, depth).value.value)
    ensures Recognised(members, e, np, depth)
  {
    hide PrefixMatches, NamedOccurrence;
    var o := NamedOccurrence(names, env, e, depth).value.value;
    var k :| 0 <= k < |members| && members[k].source == o.source && members[k].levels == o.levels
      && members[k].fixedParams == o.fixedParams;
    var bare := Group(names, [], np, (_, _, _) => false);
    OccurrenceNamed(bare, env, e, depth);
    OccurrenceExact(bare, env, e, depth, members[k]);
  }

  lemma {:induction false} SettledCovers(members: seq<Member>, names: seq<nat>, env: Env, e: Term, np: nat, depth: nat)
    requires Loose(e) <= np + depth && Settled(members, Outermost(names, env, e, depth))
    ensures Covered(members, names, env, e, np, depth)
    decreases e, 1
  {
    LooseParts(e, np + depth);
    hide NamedOccurrence, HasMember, Recognised, Loose;
    var o := NamedOccurrence(names, env, e, depth);
    var evs := Outermost(names, env, e, depth);
    SettledFirst(members, evs);
    if o.Ok? && o.value.Some? {
      assert evs[0] == Ok(o.value.value);
      if o.value.value.source in o.value.value.all { NamedRecognised(members, names, env, e, np, depth); }
    } else if o.Ok? {
      match e
      case App(f, x) => SettledPair(members, names, env, e, f, depth, x, depth, np);
      case Lam(_, ty, body) => SettledPair(members, names, env, e, ty, depth, body, depth + 1, np);
      case Pi(_, ty, body) => SettledPair(members, names, env, e, ty, depth, body, depth + 1, np);
      case Let(ty, val, body) =>
        SettledSplit(members, Outermost(names, env, ty, depth) + Outermost(names, env, val, depth),
                     Outermost(names, env, body, depth + 1));
        SettledPair(members, names, env, e, ty, depth, val, depth, np);
        SettledCovers(members, names, env, body, np, depth + 1);
      case Proj(_, _, v) => SettledCovers(members, names, env, v, np, depth);
      case _ =>
    }
  }

  lemma SettledSplit(members: seq<Member>, a: seq<Result<Occurrence>>, b: seq<Result<Occurrence>>)
    requires Settled(members, a + b)
    ensures Settled(members, a) && Settled(members, b)
  {
    hide HasMember;
    assert forall k :: 0 <= k < |a| ==> (a + b)[k] == a[k];
    assert forall k :: 0 <= k < |b| ==> (a + b)[|a| + k] == b[k];
  }

  lemma {:induction false} SettledPair(members: seq<Member>, names: seq<nat>, env: Env, whole: Term, a: Term, da: nat,
                                       b: Term, db: nat, np: nat)
    requires a < whole && b < whole && Loose(a) <= np + da && Loose(b) <= np + db
    requires Settled(members, Outermost(names, env, a, da) + Outermost(names, env, b, db))
    ensures Covered(members, names, env, a, np, da) && Covered(members, names, env, b, np, db)
    decreases whole, 0
  {
    SettledSplit(members, Outermost(names, env, a, da), Outermost(names, env, b, db));
    SettledCovers(members, names, env, a, np, da);
    SettledCovers(members, names, env, b, np, db);
  }

  function MembersOf(r: Result<Group>): Result<seq<Member>> { if r.Ok? then Ok(r.value.members) else Err(r.error) }

  /** Only members are added, and the group stays well scoped. */
  ghost predicate Extends(g: Group, r: Result<Group>) {
    r.Ok? ==> r.value == g.(members := r.value.members) && g.members <= r.value.members && WellScoped(r.value)
  }

  /** A grounded group stays grounded. */
  lemma ScannedGrounded(g: Group, env: Env, np: nat, params: seq<Binder>, evs: seq<Result<Occurrence>>,
                        after: seq<Member>)
    requires Grounded(g) && AllGenuine(g.names, env, np, evs) && Scanned(env, params, g.members, evs, Ok(after))
    ensures Grounded(g.(members := after))
  {
    hide Mentions, CtorFor, Copyable;
    forall k | 0 <= k < |after| ensures GroundedMember(after[k], g.names) {
      if k < |g.members| {
        assert after[k] == g.members[k];
      } else {
        assert Copied(env, params, evs, after[k]);
        var j :| 0 <= j < |evs| && MadeFor(env, params, evs[j], after[k]);
        assert Genuine(g.names, env, np, evs[j].value);
      }
    }
  }

  /** Scanning the occurrences `evs` in order, one after another, comes to `r`. */
  ghost predicate Scans(g: Group, env: Env, params: seq<Binder>, evs: seq<Result<Occurrence>>, r: Result<Group>) {
    Agree(MembersOf(r), AddAll(env, params, g.members, evs))
  }

  lemma ScansGrounded(g: Group, env: Env, params: seq<Binder>, evs: seq<Result<Occurrence>>, r: Result<Group>)
    requires AllGenuine(g.names, env, g.np, evs) && Scans(g, env, params, evs, r) && Extends(g, r)
    ensures Scanned(env, params, g.members, evs, MembersOf(r))
    ensures Grounded(g) && r.Ok? ==> Grounded(r.value)
  {
    hide AddAll, AllGenuine, Scanned, Grounded, WellScoped;
    AddAllScanned(g.names, env, g.np, params, g.members, evs);
    ScannedAgree(env, params, g.members, evs, AddAll(env, params, g.members, evs), MembersOf(r));
    if Grounded(g) && r.Ok? { ScannedGrounded(g, env, g.np, params, evs, r.value.members); }
  }

  lemma ScansNone(g: Group, env: Env, params: seq<Binder>)
    ensures Scans(g, env, params, [], Ok(g))
  {}

  lemma ScansRefused(g: Group, env: Env, params: seq<Binder>, error: Error)
    ensures Scans(g, env, params, [Err(error)], Err(error))
  {
    var evs: seq<Result<Occurrence>> := [Err(error)];
    assert evs[0].Err?;
  }

  /** Scanning some occurrences, and then some more unless that was refused. */
  lemma ThenScans(g: Group, env: Env, params: seq<Binder>, a: seq<Result<Occurrence>>, b: seq<Result<Occurrence>>,
                  first: Result<Group>, r: Result<Group>)
    requires Scans(g, env, params, a, first)
    requires if first.Err? then r.Err? else Scans(first.value, env, params, b, r)
    ensures Scans(g, env, params, a + b, r)
  {
    hide AddAll;
    AddAllTwo(env, params, g.members, a, b);
  }

  /** Scans a term outermost first, adding a specialisation for every occurrence met. In a grounded
      group it is refused exactly when an outermost occurrence has local parameters or is new and
      cannot be copied, and otherwise adds the copies for the outermost occurrences, in order. */
  method ScanNested(g: Group, env: Env, e: Term, depth: nat, params: seq<Binder>) returns (r: Result<Group>)
    requires ClosedEnv(env) && TelescopeIn(params, 0) && g.np == |params| && WellScoped(g)
    requires Loose(e) <= g.np + depth
    ensures Extends(g, r)
    ensures var o := NestedOccurrence(g, env, e, depth);
            (o.Err? ==> r.Err?)
            && (r.Ok? && o.value.Some? && o.value.value.source in o.value.value.all ==>
                Recognised(r.value.members, e, g.np, depth))
    ensures Grounded(g) ==> Scans(g, env, params, Outermost(g.names, env, e, depth), r)
    ensures Grounded(g) ==> Scanned(env, params, g.members, Outermost(g.names, env, e, depth), MembersOf(r))
    decreases e, 3
  {
    hide NestedOccurrence, Recognised, Scanned, WellScoped, Grounded, Loose, Scans, AllGenuine;
    LooseParts(e, g.np + depth);
    if Grounded(g) { OccurrenceNamed(g, env, e, depth); }
    var occurrence := NestedOccurrence(g, env, e, depth);
    if occurrence.Err? {
      ScansRefused(g, env, params, occurrence.error);
      r := Err(occurrence.error);
    } else if occurrence.value.Some? {
      r := AddOccurrence(g, env, e, depth, params);
    } else {
      r := ScanParts(g, env, e, depth, params);
    }
    if Grounded(g) {
      OutermostGenuine(g.names, env, g.np, e, depth);
      ScansGrounded(g, env, params, Outermost(g.names, env, e, depth), r);
    }
  }

  /** The parts of a term that is not itself an occurrence. */
  method ScanParts(g: Group, env: Env, e: Term, depth: nat, params: seq<Binder>) returns (r: Result<Group>)
    requires ClosedEnv(env) && TelescopeIn(params, 0) && g.np == |params| && WellScoped(g)
    requires Loose(e) <= g.np + depth
    ensures Extends(g, r)
    ensures Grounded(g) && NamedOccurrence(g.names, env, e, depth) == Ok(None) ==>
              Scans(g, env, params, Outermost(g.names, env, e, depth), r)
    decreases e, 2
  {
    hide NamedOccurrence, Scanned, WellScoped, Grounded, Loose, Scans;
    LooseParts(e, g.np + depth);
    ScansNone(g, env, params);
    match e
    case App(f, x) => r := ScanTwo(g, env, e, f, depth, x, depth, params);
    case Lam(_, ty, body) => r := ScanTwo(g, env, e, ty, depth, body, depth + 1, params);
    case Pi(_, ty, body) => r := ScanTwo(g, env, e, ty, depth, body, depth + 1, params);
    case Let(ty, val, body) => r := ScanThree(g, env, e, ty, val, body, depth, params);
    case Proj(_, _, v) => r := ScanNested(g, env, v, depth, params);
    case _ => r := Ok(g);
  }

  method ScanTwo(g: Group, env: Env, ghost whole: Term, a: Term, da: nat, b: Term, db: nat, params: seq<Binder>)
    returns (r: Result<Group>)
    requires ClosedEnv(env) && TelescopeIn(params, 0) && g.np == |params| && WellScoped(g)
    requires a < whole && b < whole
    requires Loose(a) <= g.np + da && Loose(b) <= g.np + db
    ensures Extends(g, r)
    ensures Grounded(g) ==> Scans(g, env, params, Outermost(g.names, env, a, da) + Outermost(g.names, env, b, db), r)
    ensures Grounded(g) && r.Ok? ==> Grounded(r.value)
    decreases whole, 0
  {
    hide Scanned, WellScoped, Grounded, Loose, NestedOccurrence, Recognised, Outermost, Scans, AllGenuine;
    var first := ScanNested(g, env, a, da, params);
    r := first;
    if first.Ok? { r := ScanNested(first.value, env, b, db, params); }
    if Grounded(g) {
      OutermostGenuine(g.names, env, g.np, a, da);
      OutermostGenuine(g.names, env, g.np, b, db);
      ScansGrounded(g, env, params, Outermost(g.names, env, a, da), first);
      ThenScans(g, env, params, Outermost(g.names, env, a, da), Outermost(g.names, env, b, db), first, r);
      if r.Ok? { ScansGrounded(first.value, env, params, Outermost(g.names, env, b, db), r); }
    }
  }

  /** The type, the value and the body of a let. */
  method ScanThree(g: Group, env: Env, ghost whole: Term, a: Term, b: Term, c: Term, depth: nat, params: seq<Binder>)
    returns (r: Result<Group>)
    requires ClosedEnv(env) && TelescopeIn(params, 0) && g.np == |params| && WellScoped(g)
    requires a < whole && b < whole && c < whole
    requires Loose(a) <= g.np + depth && Loose(b) <= g.np + depth && Loose(c) <= g.np + depth + 1
    ensures Extends(g, r)
    ensures Grounded(g) ==>
              Scans(g, env, params,
                    Outermost(g.names, env, a, depth) + Outermost(g.names, env, b, depth)
                      + Outermost(g.names, env, c, depth + 1), r)
    decreases whole, 1
  {
    hide Scanned, WellScoped, Grounded, Loose, NestedOccurrence, Recognised, Outermost, AllGenuine, Scans;
    var first := ScanTwo(g, env, whole, a, depth, b, depth, params);
    r := first;
    if first.Ok? { r := ScanNested(first.value, env, c, depth + 1, params); }
    if Grounded(g) {
      ThenScans(g, env, params, Outermost(g.names, env, a, depth) + Outermost(g.names, env, b, depth),
                Outermost(g.names, env, c, depth + 1), first, r);
    }
  }

  lemma GenuineBoth(names: seq<nat>, env: Env, np: nat, a: seq<Result<Occurrence>>, b: seq<Result<Occurrence>>)
    requires AllGenuine(names, env, np, a) && AllGenuine(names, env, np, b)
    ensures AllGenuine(names, env, np, a + b)
  {
    hide Genuine;
  }

  method AddOccurrence(g: Group, env: Env, e: Term, depth: nat, params: seq<Binder>) returns (r: Result<Group>)
    requires ClosedEnv(env) && TelescopeIn(params, 0) && g.np == |params| && WellScoped(g)
    requires Loose(e) <= g.np + depth
    requires NestedOccurrence(g, env, e, depth).Ok? && NestedOccurrence(g, env, e, depth).value.Some?
    ensures Extends(g, r)
    ensures var o := NestedOccurrence(g, env, e, depth).value.value;
            (r.Ok? && o.source in o.all ==> Recognised(r.value.members, e, g.np, depth))
            && Scans(g, env, params, [Ok(o)], r)
  {
    hide NestedOccurrence, Addable, MemberFor, PrefixMatches, WellScopedMember, AddAll;
    var o := NestedOccurrence(g, env, e, depth).value.value;
    OccurrenceExact(g, env, e, depth, Member(o.source, o.levels, o.fixedParams, e, 0, []));
    var added := AddNestedSpecialization(env, o, params, g.members);
    r := if added.Ok? then Ok(g.(members := added.value)) else Err(added.error);
    OccurrenceSource(g, env, e, depth);
    AppendedIs(env, o, params, g.members, added);
    if added.Ok? {
      AppendedHas(env, o, params, g.members, added.value, o);
      if o.source in o.all {
        ghost var k :| 0 <= k < |added.value| && MemberOf(added.value[k], o);
        OccurrenceExact(g, env, e, depth, added.value[k]);
      }
    }
  }

  lemma OccurrenceSource(g: Group, env: Env, e: Term, depth: nat)
    requires NestedOccurrence(g, env, e, depth).Ok? && NestedOccurrence(g, env, e, depth).value.Some?
    ensures var o := NestedOccurrence(g, env, e, depth).value.value;
            o.source in env.types && o.all == env.types[o.source].all && o.np == env.types[o.source].np
  {}

  // ----------------------------------------------------------------- expansion

  /** The outermost occurrences of a constructor under the parameters; too few Pis is an error. */
  function OneCtorEvents(names: seq<nat>, env: Env, np: nat, c: Ctor): seq<Result<Occurrence>> {
    if HasPis(c.typ, np) then Outermost(names, env, Peel(c.typ, np), 0) else [Err(NotPi)]
  }

  /** Those of the first `k` constructors. */
  function CtorEvents(names: seq<nat>, env: Env, np: nat, ctors: seq<Ctor>, k: nat): seq<Result<Occurrence>>
    requires k <= |ctors|
  {
    if k == 0 then []
    else CtorEvents(names, env, np, ctors, k - 1) + OneCtorEvents(names, env, np, ctors[k - 1])
  }

  function MemberEvents(names: seq<nat>, env: Env, np: nat, m: Member): seq<Result<Occurrence>> {
    CtorEvents(names, env, np, m.ctors, |m.ctors|)
  }

  /** Those of all constructors of the first `k` members. */
  function QueueEvents(names: seq<nat>, env: Env, np: nat, members: seq<Member>, k: nat): seq<Result<Occurrence>>
    requires k <= |members|
  {
    if k == 0 then []
    else QueueEvents(names, env, np, members, k - 1) + MemberEvents(names, env, np, members[k - 1])
  }

  lemma {:induction false} CtorEventsGenuine(names: seq<nat>, env: Env, np: nat, m: Member, k: nat)
    requires WellScopedMember(m, np) && k <= |m.ctors|
    ensures AllGenuine(names, env, np, CtorEvents(names, env, np, m.ctors, k))
  {
    if k > 0 {
      CtorEventsGenuine(names, env, np, m, k - 1);
      var t := m.ctors[k - 1].typ;
      var last := OneCtorEvents(names, env, np, m.ctors[k - 1]);
      if HasPis(t, np) {
        PeelScoped(t, np, 0);
        OutermostGenuine(names, env, np, Peel(t, np), 0);
      }
      GenuineBoth(names, env, np, CtorEvents(names, env, np, m.ctors, k - 1), last);
    }
  }

  lemma {:induction false} QueueEventsGenuine(names: seq<nat>, env: Env, np: nat, members: seq<Member>, k: nat)
    requires AllWellScoped(members, np) && k <= |members|
    ensures AllGenuine(names, env, np, QueueEvents(names, env, np, members, k))
  {
    hide CtorEvents, Genuine, WellScopedMember;
    if k > 0 {
      QueueEventsGenuine(names, env, np, members, k - 1);
      assert WellScopedMember(members[k - 1], np);
      CtorEventsGenuine(names, env, np, members[k - 1], |members[k - 1].ctors|);
      GenuineBoth(names, env, np, QueueEvents(names, env, np, members, k - 1),
                  MemberEvents(names, env, np, members[k - 1]));
    }
  }

  lemma {:induction false} QueueEventsPrefix(names: seq<nat>, env: Env, np: nat, members: seq<Member>,
                                             more: seq<Member>, k: nat)
    requires k <= |members| && members <= more
    ensures QueueEvents(names, env, np, members, k) == QueueEvents(names, env, np, more, k)
  {
    hide CtorEvents;
    if k > 0 { QueueEventsPrefix(names, env, np, members, more, k - 1); }
  }

  /** Every constructor of the member at `qhead`, under its parameters. */
  method ScanMember(g: Group, env: Env, qhead: nat, params: seq<Binder>) returns (r: Result<Group>)
    requires ClosedEnv(env) && TelescopeIn(params, 0) && g.np == |params| && WellScoped(g) && qhead < |g.members|
    ensures Extends(g, r)
    ensures Grounded(g) ==> Scans(g, env, params, MemberEvents(g.names, env, g.np, g.members[qhead]), r)
    ensures Grounded(g) ==>
              Scanned(env, params, g.members, MemberEvents(g.names, env, g.np, g.members[qhead]), MembersOf(r))
  {
    var m := g.members[qhead];
    assert WellScopedMember(m, g.np);
    assert forall c :: 0 <= c < |m.ctors| ==> Loose(m.ctors[c].typ) == 0;
    r := Ok(g);
    ScannedToNone(g, env, params, m);
    hide Scanned, Grounded, Loose, WellScoped, WellScopedMember, Scans, ScannedTo, MemberEvents;
    for c := 0 to |m.ctors|
      invariant r.Ok? && Extends(g, r)
      invariant Grounded(g) ==> Grounded(r.value) && ScannedTo(g, env, params, m, c, r)
    {
      var next := ScanCtor(r.value, env, m.ctors[c], params);
      if Grounded(g) { CtorScanned(g, env, params, m, c, r, next); }
      if next.Err? {
        if Grounded(g) { ScannedToEnd(g, env, params, m, c + 1, next); }
        return next;
      }
      r := next;
    }
    if Grounded(g) { ScannedToEnd(g, env, params, m, |m.ctors|, r); }
  }

  /** The first `c` constructors have been scanned, or one of them was refused. */
  ghost predicate ScannedTo(g: Group, env: Env, params: seq<Binder>, m: Member, c: nat, r: Result<Group>) {
    c <= |m.ctors| && Extends(g, r) && Scans(g, env, params, CtorEvents(g.names, env, g.np, m.ctors, c), r)
  }

  lemma ScannedToNone(g: Group, env: Env, params: seq<Binder>, m: Member)
    requires WellScoped(g)
    ensures ScannedTo(g, env, params, m, 0, Ok(g))
  {
    ScansNone(g, env, params);
  }

  lemma ScannedToEnd(g: Group, env: Env, params: seq<Binder>, m: Member, c: nat, r: Result<Group>)
    requires WellScopedMember(m, g.np) && ScannedTo(g, env, params, m, c, r) && (r.Err? || c == |m.ctors|)
    ensures Scans(g, env, params, MemberEvents(g.names, env, g.np, m), r)
    ensures Scanned(env, params, g.members, MemberEvents(g.names, env, g.np, m), MembersOf(r))
  {
    hide Scanned, WellScopedMember, Extends, Scans, AllGenuine;
    if r.Err? { CtorsStayRefused(g, env, params, m, c, |m.ctors|, r); }
    CtorEventsGenuine(g.names, env, g.np, m, |m.ctors|);
    ScansGrounded(g, env, params, MemberEvents(g.names, env, g.np, m), r);
  }

  lemma CtorScanned(g: Group, env: Env, params: seq<Binder>, m: Member, c: nat, r: Result<Group>, next: Result<Group>)
    requires Grounded(g) && WellScopedMember(m, g.np) && c < |m.ctors| && r.Ok? && Extends(g, next)
    requires ScannedTo(g, env, params, m, c, r)
    requires Scans(r.value, env, params, OneCtorEvents(g.names, env, g.np, m.ctors[c]), next)
    ensures ScannedTo(g, env, params, m, c + 1, next)
    ensures next.Ok? ==> Grounded(next.value)
  {
    hide Scanned, Grounded, WellScopedMember, Outermost, Scans, AllGenuine;
    ThenScans(g, env, params, CtorEvents(g.names, env, g.np, m.ctors, c), OneCtorEvents(g.names, env, g.np, m.ctors[c]),
              r, next);
    CtorEventsGenuine(g.names, env, g.np, m, c + 1);
    ScansGrounded(g, env, params, CtorEvents(g.names, env, g.np, m.ctors, c + 1), next);
  }

  /** Once some occurrences are refused, more of them are. */
  lemma {:induction false} CtorsStayRefused(g: Group, env: Env, params: seq<Binder>, m: Member, j: nat, k: nat,
                                            r: Result<Group>)
    requires j <= k <= |m.ctors| && r.Err? && Scans(g, env, params, CtorEvents(g.names, env, g.np, m.ctors, j), r)
    ensures Scans(g, env, params, CtorEvents(g.names, env, g.np, m.ctors, k), r)
    decreases k
  {
    hide Scans, OneCtorEvents;
    if j < k {
      CtorsStayRefused(g, env, params, m, j, k - 1, r);
      ThenScans(g, env, params, CtorEvents(g.names, env, g.np, m.ctors, k - 1),
                OneCtorEvents(g.names, env, g.np, m.ctors[k - 1]), r, r);
    }
  }

  method ScanCtor(g: Group, env: Env, c: Ctor, params: seq<Binder>) returns (r: Result<Group>)
    requires ClosedEnv(env) && TelescopeIn(params, 0) && g.np == |params| && WellScoped(g) && Loose(c.typ) == 0
    ensures Extends(g, r)
    ensures Grounded(g) ==> Scans(g, env, params, OneCtorEvents(g.names, env, g.np, c), r)
  {
    hide Scanned, Grounded, WellScoped, Loose, Outermost, Recognised, NestedOccurrence, Scans;
    var peeled := PeelPis(c.typ, g.np);
    if peeled.Err? {
      ScansRefused(g, env, params, NotPi);
      return Err(NotPi);
    }
    PeelScoped(c.typ, g.np, 0);
    r := ScanNested(g, env, peeled.value.1, 0, params);
  }

  /** Every constructor of every member has the parameters, and every outermost occurrence under them is recognised. */
  ghost predicate Saturated(g: Group, env: Env) {
    forall k, c :: 0 <= k < |g.members| && 0 <= c < |g.members[k].ctors| ==> CtorCovered(g, env, g.members[k].ctors[c])
  }

  ghost predicate CtorCovered(g: Group, env: Env, c: Ctor) {
    HasPis(c.typ, g.np) && Covered(g.members, g.names, env, Peel(c.typ, g.np), g.np, 0)
  }

  lemma {:induction false} CtorsCovered(g: Group, env: Env, m: Member, k: nat)
    requires WellScopedMember(m, g.np) && k <= |m.ctors|
             && Settled(g.members, CtorEvents(g.names, env, g.np, m.ctors, k))
    ensures forall c :: 0 <= c < k ==> CtorCovered(g, env, m.ctors[c])
  {
    hide Covered, Outermost, Settled;
    if k > 0 {
      var t := m.ctors[k - 1].typ;
      var last := OneCtorEvents(g.names, env, g.np, m.ctors[k - 1]);
      SettledSplit(g.members, CtorEvents(g.names, env, g.np, m.ctors, k - 1), last);
      CtorsCovered(g, env, m, k - 1);
      SettledFirst(g.members, last);
      if HasPis(t, g.np) {
        PeelScoped(t, g.np, 0);
        SettledCovers(g.members, g.names, env, Peel(t, g.np), g.np, 0);
      }
    }
  }

  lemma SettledFirst(members: seq<Member>, evs: seq<Result<Occurrence>>)
    requires Settled(members, evs)
    ensures evs != [] ==> evs[0].Ok?
  {}

  lemma {:induction false} QueueCovered(g: Group, env: Env, k: nat)
    requires WellScoped(g) && k <= |g.members| && Settled(g.members, QueueEvents(g.names, env, g.np, g.members, k))
    ensures forall i, c :: 0 <= i < k && 0 <= c < |g.members[i].ctors| ==> CtorCovered(g, env, g.members[i].ctors[c])
  {
    hide CtorEvents, CtorCovered, Settled, WellScopedMember;
    if k > 0 {
      var m := g.members[k - 1];
      SettledSplit(g.members, QueueEvents(g.names, env, g.np, g.members, k - 1),
                   CtorEvents(g.names, env, g.np, m.ctors, |m.ctors|));
      QueueCovered(g, env, k - 1);
      assert WellScopedMember(m, g.np);
      CtorsCovered(g, env, m, |m.ctors|);
    }
  }

  /** The whole expansion as a function of the members: the queue worked off from `qhead` on, for at
      most `fuel` members. */
  ghost function ExpandFrom(names: seq<nat>, env: Env, np: nat, params: seq<Binder>, members: seq<Member>, qhead: nat,
                            fuel: nat)
    : (r: (Result<seq<Member>>, bool))
    requires qhead <= |members|
    ensures r.0.Ok? ==> members <= r.0.value
    decreases fuel
  {
    if qhead == |members| then (Ok(members), true)
    else if fuel == 0 then (Ok(members), false)
    else
      var next := AddAll(env, params, members, MemberEvents(names, env, np, members[qhead]));
      if next.Err? then (next, true) else ExpandFrom(names, env, np, params, next.value, qhead + 1, fuel - 1)
  }

  /** When the queue is worked off, or the expansion refused, more fuel changes nothing. */
  lemma {:induction false} MoreFuel(names: seq<nat>, env: Env, np: nat, params: seq<Binder>, members: seq<Member>,
                                    qhead: nat,
                                    fuel: nat, more: nat)
    requires qhead <= |members| && ExpandFrom(names, env, np, params, members, qhead, fuel).1 && fuel <= more
    ensures ExpandFrom(names, env, np, params, members, qhead, more)
            == ExpandFrom(names, env, np, params, members, qhead, fuel)
    decreases fuel
  {
    hide AddAll, MemberEvents;
    if qhead < |members| {
      var next := AddAll(env, params, members, MemberEvents(names, env, np, members[qhead]));
      if next.Ok? { MoreFuel(names, env, np, params, next.value, qhead + 1, fuel - 1, more - 1); }
    }
  }

  /** The expansion has not left the course of the function. */
  ghost predicate OnCourse(g: Group, env: Env, params: seq<Binder>, fuel: nat, members: seq<Member>, qhead: nat,
                           left: nat)
  {
    qhead <= |members|
    && (var all, rest := ExpandFrom(g.names, env, g.np, params, g.members, 0, fuel),
                         ExpandFrom(g.names, env, g.np, params, members, qhead, left);
        Agree(all.0, rest.0) && all.1 == rest.1)
  }

  lemma CourseNext(g: Group, env: Env, params: seq<Binder>, fuel: nat, cur: Group, qhead: nat, left: nat,
                   next: Result<Group>)
    requires OnCourse(g, env, params, fuel, cur.members, qhead, left) && qhead < |cur.members| && left > 0
    requires cur.names == g.names && cur.np == g.np
    requires Scans(cur, env, params, MemberEvents(g.names, env, g.np, cur.members[qhead]), next)
    ensures next.Ok? ==> OnCourse(g, env, params, fuel, next.value.members, qhead + 1, left - 1)
    ensures next.Err? ==> var all := ExpandFrom(g.names, env, g.np, params, g.members, 0, fuel); all.0.Err? && all.1
  {
    hide AddAll, MemberEvents;
  }

  lemma CourseEnds(g: Group, env: Env, params: seq<Binder>, fuel: nat, members: seq<Member>, qhead: nat, left: nat)
    requires OnCourse(g, env, params, fuel, members, qhead, left) && (qhead == |members| || left == 0)
    ensures ExpandFrom(g.names, env, g.np, params, g.members, 0, fuel) == (Ok(members), qhead == |members|)
  {}

  /** Where an expansion stands, or stopped: the members reached, and how many of them have been scanned. */
  ghost predicate Expanded(g: Group, env: Env, params: seq<Binder>, reached: Group, scanned: nat, r: Result<Group>) {
    Extends(g, Ok(reached)) && scanned <= |reached.members|
    && Scanned(env, params, g.members, QueueEvents(g.names, env, g.np, reached.members, scanned), MembersOf(r))
    && CopiedFor(env, params, QueueEvents(g.names, env, g.np, reached.members, scanned), reached.members, |g.members|)
  }

  /** Breadth-first expansion of a group, for at most `fuel` members. It only adds members. From a grounded
      group it is refused exactly when some scanned constructor lacks the parameters or has an outermost
      occurrence that has local parameters or is new and cannot be copied; every member added is a copy
      made for an outermost occurrence of a scanned constructor; and when the queue is worked off, every
      outermost occurrence in every constructor of every member is recognised. The members come in the
      order in which the queue meets the occurrences. */
  method ExpandNestedMembers(g: Group, env: Env, params: seq<Binder>, fuel: nat)
    returns (r: Result<Group>, done: bool, ghost reached: Group, ghost scanned: nat)
    requires ClosedEnv(env) && TelescopeIn(params, 0) && g.np == |params| && WellScoped(g)
    ensures Extends(g, r)
    ensures r.Ok? && done ==> |r.value.members| <= fuel
    ensures scanned <= fuel && (r.Ok? ==> r.value == reached && (done <==> scanned == |reached.members|))
    ensures Grounded(g) ==> Expanded(g, env, params, reached, scanned, r)
    ensures Grounded(g) ==>
              var all := ExpandFrom(g.names, env, g.np, params, g.members, 0, fuel);
              Agree(MembersOf(r), all.0) && done == all.1
    ensures Grounded(g) && r.Ok? ==> Grounded(r.value)
    ensures Grounded(g) && r.Ok? && done ==> Saturated(r.value, env)
  {
    hide Scanned, Grounded, WellScoped, Saturated, MemberEvents, CopiedFor, Scans, OnCourse, ExpandFrom, Expanded,
         QueueEvents;
    var cur, qhead := g, 0;
    ghost var grounded := Grounded(g);
    StartExpanded(g, env, params);
    while qhead < |cur.members| && qhead < fuel
      invariant Extends(g, Ok(cur)) && WellScoped(cur) && qhead <= |cur.members| && qhead <= fuel
      invariant grounded ==> Grounded(cur) && Expanded(g, env, params, cur, qhead, Ok(cur))
      invariant grounded ==> OnCourse(g, env, params, fuel, cur.members, qhead, fuel - qhead)
      decreases fuel - qhead
    {
      var next := ScanMember(cur, env, qhead, params);
      if grounded {
        MemberExpanded(g, env, params, cur, qhead, next);
        CourseNext(g, env, params, fuel, cur, qhead, fuel - qhead, next);
      }
      if next.Err? { return next, true, cur, qhead + 1; }
      cur := next.value;
      qhead := qhead + 1;
    }
    r, reached, scanned := Ok(cur), cur, qhead;
    done := qhead == |cur.members|;
    if grounded {
      CourseEnds(g, env, params, fuel, cur.members, qhead, fuel - qhead);
      if done { ExpandedSaturated(g, env, params, cur); }
    }
  }

  lemma StartExpanded(g: Group, env: Env, params: seq<Binder>)
    requires WellScoped(g)
    ensures Expanded(g, env, params, g, 0, Ok(g))
    ensures forall fuel: nat :: OnCourse(g, env, params, fuel, g.members, 0, fuel)
  {
    ScannedNone(env, params, g.members);
  }

  lemma MemberExpanded(g: Group, env: Env, params: seq<Binder>, cur: Group, qhead: nat, next: Result<Group>)
    requires Grounded(g) && WellScoped(cur) && qhead < |cur.members| && Expanded(g, env, params, cur, qhead, Ok(cur))
    requires Extends(cur, next)
    requires Scanned(env, params, cur.members, MemberEvents(cur.names, env, cur.np, cur.members[qhead]),
                     MembersOf(next))
    ensures Expanded(g, env, params, if next.Ok? then next.value else cur, qhead + 1, next)
    ensures next.Ok? ==> Grounded(next.value)
  {
    hide Grounded, CtorEvents, AllGenuine, WellScopedMember, AllAddable, Settled, MadeFor, Copied;
    var m := cur.members[qhead];
    var a := QueueEvents(g.names, env, g.np, cur.members, qhead);
    var b := CtorEvents(g.names, env, g.np, m.ctors, |m.ctors|);
    assert WellScopedMember(m, g.np);
    QueueEventsGenuine(g.names, env, g.np, cur.members, qhead);
    CtorEventsGenuine(g.names, env, g.np, m, |m.ctors|);
    GenuineBoth(g.names, env, g.np, a, b);
    ScannedTwo(g.names, env, g.np, params, g.members, a, b, Ok(cur.members), MembersOf(next));
    CopiedMore(env, params, a, b, cur.members, |g.members|);
    if next.Ok? {
      QueueEventsPrefix(g.names, env, g.np, cur.members, next.value.members, qhead + 1);
      ScannedGrounded(g, env, g.np, params, a + b, next.value.members);
    }
  }

  lemma CopiedMore(env: Env, params: seq<Binder>, a: seq<Result<Occurrence>>, b: seq<Result<Occurrence>>,
                   members: seq<Member>, from: nat)
    requires CopiedFor(env, params, a, members, from)
    ensures CopiedFor(env, params, a + b, members, from)
  {
    hide MadeFor;
    var both := a + b;
    forall k | from <= k < |members| ensures Copied(env, params, both, members[k]) {
      assert Copied(env, params, a, members[k]);
      var j :| 0 <= j < |a| && MadeFor(env, params, a[j], members[k]);
      assert both[j] == a[j];
    }
  }

  lemma ExpandedSaturated(g: Group, env: Env, params: seq<Binder>, cur: Group)
    requires WellScoped(cur) && Expanded(g, env, params, cur, |cur.members|, Ok(cur))
    ensures Saturated(cur, env)
  {
    hide CtorCovered;
    QueueCovered(cur, env, |cur.members|);
  }
}
