/** What a user may see, and the operations that combine classifications, on parsed parts. */
module Access {
  import opened Wrappers
  import opened Marking
  import opened Normalization

  // ---------------------------------------------------------------- access

  predicate CanSeeGroups(user: set<string>, groups: set<string>) {
    groups == {} || exists g :: g in user && g in groups
  }

  predicate Accessible(user: Parts, p: Parts) {
    && user.lvl >= p.lvl
    && p.req <= user.req
    && CanSeeGroups(user.groups, p.groups)
    && CanSeeGroups(user.subgroups, p.subgroups)
  }

  // ---------------------------------------------------------------- combinations

  /** `_max_groups`: the common groups, or the only side's groups when the other has none. */
  function MaxGroups(a: set<string>, b: set<string>): Result<set<string>> {
    if a != {} && b != {} then (if a * b == {} then Invalid else Valid(a * b)) else Valid(a + b)
  }

  function MinGroups(a: set<string>, b: set<string>): set<string> {
    if a != {} && b != {} then a + b else {}
  }

  function Min(a: nat, b: nat): nat { if a <= b then a else b }

  /** The parts each operation hands to the printer. */
  function MaxOf(a: Parts, b: Parts): Result<Parts> {
    match (MaxGroups(a.groups, b.groups), MaxGroups(a.subgroups, b.subgroups))
    case (Valid(g), Valid(s)) => Valid(Parts(Max(a.lvl, b.lvl), a.req + b.req, g, s))
    case _ => Invalid
  }

  function MinOf(a: Parts, b: Parts): Parts {
    Parts(Min(a.lvl, b.lvl), a.req * b.req, MinGroups(a.groups, b.groups), MinGroups(a.subgroups, b.subgroups))
  }

  function IntersectOf(a: Parts, b: Parts): Parts {
    Parts(Min(a.lvl, b.lvl), a.req * b.req, a.groups * b.groups, a.subgroups * b.subgroups)
  }

  function BuildOf(a: Parts, b: Parts): Parts {
    Parts(Max(a.lvl, b.lvl), a.req + b.req, a.groups + b.groups, a.subgroups + b.subgroups)
  }

  /** Parts as normalization leaves them. */
  ghost predicate Normal(d: Definition, p: Parts) {
    Closed(d, p) && Raise(d, p) == p
  }

  ghost predicate NoGroupRules(d: Definition) {
    forall x :: x in d.params ==> d.params[x].requireGroup.None? && d.params[x].limitedTo.None?
  }

  // ---------------------------------------------------------------- the level floor

  lemma FloorMonotone(d: Definition, a: set<string>, b: set<string>)
    requires a <= b
    ensures Floor(d, a) <= Floor(d, b)
  {
    if Floor(d, a) != 0 {
      var r :| r in a && ParamsOf(d, r).requireLvl == Floor(d, a);
      assert r in b;
    }
  }

  lemma FloorUnion(d: Definition, a: set<string>, b: set<string>)
    ensures Floor(d, a + b) == Max(Floor(d, a), Floor(d, b))
  {
    FloorMonotone(d, a, a + b);
    FloorMonotone(d, b, a + b);
    if Floor(d, a + b) != 0 {
      var r :| r in a + b && ParamsOf(d, r).requireLvl == Floor(d, a + b);
    }
  }

  lemma NormalFloor(d: Definition, p: Parts)
    ensures Raise(d, p) == p <==> Floor(d, p.req) <= p.lvl
    ensures Raise(d, Raise(d, p)) == Raise(d, p)
  {
  }

  // ---------------------------------------------------------------- the combinations stay normal

  lemma NoRulesClose(d: Definition, p: Parts)
    requires NoGroupRules(d)
    ensures RequiredGroups(d, p.subgroups) == {}
    ensures WithinLimits(d, p.subgroups, p.groups)
  {
  }

  lemma MaxClosed(d: Definition, a: Parts, b: Parts)
    requires NoGroupRules(d) && Closed(d, a) && Closed(d, b) && MaxOf(a, b).Valid?
    ensures Closed(d, MaxOf(a, b).value)
  {
    NoRulesClose(d, MaxOf(a, b).value);
  }

  lemma MaxRaised(d: Definition, a: Parts, b: Parts)
    requires Raise(d, a) == a && Raise(d, b) == b && MaxOf(a, b).Valid?
    ensures Raise(d, MaxOf(a, b).value) == MaxOf(a, b).value
  {
    FloorUnion(d, a.req, b.req);
    NormalFloor(d, a);
    NormalFloor(d, b);
    NormalFloor(d, MaxOf(a, b).value);
  }

  lemma MinClosed(d: Definition, a: Parts, b: Parts)
    requires NoGroupRules(d) && Closed(d, a) && Closed(d, b)
    ensures Closed(d, MinOf(a, b))
  {
    NoRulesClose(d, MinOf(a, b));
  }

  lemma MinRaised(d: Definition, a: Parts, b: Parts)
    requires Raise(d, a) == a && Raise(d, b) == b
    ensures Raise(d, MinOf(a, b)) == MinOf(a, b)
    ensures Raise(d, IntersectOf(a, b)) == IntersectOf(a, b)
  {
    FloorMonotone(d, a.req * b.req, a.req);
    FloorMonotone(d, a.req * b.req, b.req);
    NormalFloor(d, a);
    NormalFloor(d, b);
    NormalFloor(d, MinOf(a, b));
    NormalFloor(d, IntersectOf(a, b));
  }

  /** Intersection respects required and limited groups without help. */
  lemma IntersectClosed(d: Definition, a: Parts, b: Parts)
    requires Closed(d, a) && Closed(d, b)
    ensures Closed(d, IntersectOf(a, b))
  {
    forall g | g in RequiredGroups(d, a.subgroups * b.subgroups) ensures g in a.groups * b.groups {
      var s :| s in a.subgroups * b.subgroups && ParamsOf(d, s).requireGroup == Some(g);
      assert g in RequiredGroups(d, a.subgroups) && g in RequiredGroups(d, b.subgroups);
    }
  }

  lemma RequiredOfUnion(d: Definition, a: set<string>, b: set<string>)
    ensures RequiredGroups(d, a + b) == RequiredGroups(d, a) + RequiredGroups(d, b)
  {
  }

  lemma BuildClosed(d: Definition, a: Parts, b: Parts)
    requires Closed(d, a) && Closed(d, b) && Fits(d, BuildOf(a, b))
    ensures Closed(d, BuildOf(a, b)) && Filled(d, BuildOf(a, b)) == BuildOf(a, b)
  {
    var m := BuildOf(a, b);
    RequiredOfUnion(d, a.subgroups, b.subgroups);
    assert m.groups + RequiredGroups(d, m.subgroups) == m.groups;
  }

  lemma BuildRaised(d: Definition, a: Parts, b: Parts)
    requires Raise(d, a) == a && Raise(d, b) == b
    ensures Raise(d, BuildOf(a, b)) == BuildOf(a, b)
  {
    FloorUnion(d, a.req, b.req);
    NormalFloor(d, a);
    NormalFloor(d, b);
    NormalFloor(d, BuildOf(a, b));
  }

  // ---------------------------------------------------------------- bounds on access

  lemma MaxGroupsBound(user: set<string>, a: set<string>, b: set<string>)
    requires MaxGroups(a, b).Valid? && CanSeeGroups(user, MaxGroups(a, b).value)
    ensures CanSeeGroups(user, a) && CanSeeGroups(user, b)
  {
    if a != {} && b != {} {
      var g :| g in user && g in a * b;
      assert g in a && g in b;
    } else {
      assert a + b == a || a + b == b;
    }
  }

  /** Who can access the maximum can access both classifications. */
  lemma MaxBounds(user: Parts, a: Parts, b: Parts)
    requires MaxOf(a, b).Valid? && Accessible(user, MaxOf(a, b).value)
    ensures Accessible(user, a) && Accessible(user, b)
  {
    MaxGroupsBound(user.groups, a.groups, b.groups);
    MaxGroupsBound(user.subgroups, a.subgroups, b.subgroups);
  }

  lemma MinGroupsBound(user: set<string>, a: set<string>, b: set<string>)
    requires CanSeeGroups(user, a) || CanSeeGroups(user, b)
    ensures CanSeeGroups(user, MinGroups(a, b))
  {
    if a != {} && b != {} {
      var g :| g in user && (g in a || g in b);
      assert g in a + b;
    }
  }

  /** Who can access one of two classifications can access their minimum. */
  lemma MinBounds(user: Parts, a: Parts, b: Parts)
    requires Accessible(user, a) || Accessible(user, b)
    ensures Accessible(user, MinOf(a, b))
  {
    MinGroupsBound(user.groups, a.groups, b.groups);
    MinGroupsBound(user.subgroups, a.subgroups, b.subgroups);
  }

  lemma SeesMore(user: set<string>, more: set<string>, groups: set<string>)
    requires CanSeeGroups(user, groups) && user <= more
    ensures CanSeeGroups(more, groups)
  {
  }

  /** The combined user keeps everything either user had. */
  lemma BuildComplete(a: Parts, b: Parts, p: Parts)
    requires Accessible(a, p) || Accessible(b, p)
    ensures Accessible(BuildOf(a, b), p)
  {
    var u := BuildOf(a, b);
    var side := if Accessible(a, p) then a else b;
    SeesMore(side.groups, u.groups, p.groups);
    SeesMore(side.subgroups, u.subgroups, p.subgroups);
  }

  // ---------------------------------------- exactly when a text read back as `q` keeps the bounds

  /** Whoever may see `q` may see `a` and `b`. */
  ghost predicate Guards(d: Definition, q: Parts, a: Parts, b: Parts) {
    forall user :: Normal(d, user) && Accessible(user, q) ==> Accessible(user, a) && Accessible(user, b)
  }

  /** Whoever may see `a` or `b` may see `q`. */
  ghost predicate OpenTo(d: Definition, q: Parts, a: Parts, b: Parts) {
    forall user :: Normal(d, user) && (Accessible(user, a) || Accessible(user, b)) ==> Accessible(user, q)
  }

  /** The user `q` sees nothing that `a` or `b` does not. */
  ghost predicate GrantsShared(d: Definition, q: Parts, a: Parts, b: Parts) {
    forall p :: Normal(d, p) && Accessible(q, p) ==> Accessible(a, p) && Accessible(b, p)
  }

  /** The user `q` sees all that `a` and `b` do. */
  ghost predicate GrantsAll(d: Definition, q: Parts, a: Parts, b: Parts) {
    forall p :: Normal(d, p) && (Accessible(a, p) || Accessible(b, p)) ==> Accessible(q, p)
  }

  /** A marking of `p` whose groups may have come back as others. */
  ghost predicate ReadAs(d: Definition, p: Parts, q: Parts) {
    Closed(d, q) && q.lvl == p.lvl && q.req == p.req
  }

  /** Who can see `x` can see `y`. */
  predicate NoWider(x: set<string>, y: set<string>) {
    y != {} ==> x != {} && x <= y
  }

  lemma NoWiderSees(user: set<string>, x: set<string>, y: set<string>)
    requires NoWider(x, y) && CanSeeGroups(user, x)
    ensures CanSeeGroups(user, y)
  {
  }

  /** A user of one group that sees `x` and not `y`, or of none. */
  lemma WiderShows(x: set<string>, y: set<string>) returns (user: set<string>)
    requires !NoWider(x, y)
    ensures user <= x && |user| <= 1 && CanSeeGroups(user, x) && !CanSeeGroups(user, y)
  {
    if x == {} {
      user := {};
    } else {
      var g :| g in x && g !in y;
      user := {g};
    }
  }

  lemma SeesOwnGroups(gs: set<string>)
    ensures CanSeeGroups(gs, gs)
  {
  }

  /** Who sees none of the common groups does not see both sides. */
  lemma BeyondMax(user: set<string>, a: set<string>, b: set<string>)
    requires MaxGroups(a, b).Valid? && !CanSeeGroups(user, MaxGroups(a, b).value) && |user| <= 1
    ensures !CanSeeGroups(user, a) || !CanSeeGroups(user, b)
  {
    if a != {} && b != {} {
      if CanSeeGroups(user, a) && CanSeeGroups(user, b) {
        var g :| g in user && g in a;
        var h :| h in user && h in b;
        OnlyOne(user, g, h);
      }
    } else {
      assert a + b == a || a + b == b;
    }
  }

  lemma OnlyOne(s: set<string>, g: string, h: string)
    requires |s| <= 1 && g in s && h in s
    ensures g == h
  {
    assert s == {g} + (s - {g});
  }

  lemma MinSide(user: set<string>, a: set<string>, b: set<string>)
    requires CanSeeGroups(user, MinGroups(a, b))
    ensures CanSeeGroups(user, a) || CanSeeGroups(user, b)
  {
    if a != {} && b != {} {
      var g :| g in user && g in a + b;
    }
  }

  lemma NormalUser(d: Definition, p: Parts, q: Parts, groups: set<string>, subgroups: set<string>)
    requires NoGroupRules(d) && Normal(d, p) && Closed(d, q) && groups <= q.groups && subgroups <= q.subgroups
    ensures Normal(d, Parts(p.lvl, p.req, groups, subgroups))
  {
    NoRulesClose(d, Parts(p.lvl, p.req, groups, subgroups));
  }

  lemma PartsOfGroup(d: Definition, q: Parts, g: string)
    requires Closed(d, q) && g in q.groups
    ensures Normal(d, Parts(q.lvl, {}, {g}, {})) && Accessible(q, Parts(q.lvl, {}, {g}, {}))
  {
  }

  lemma PartsOfSub(d: Definition, q: Parts, s: string)
    requires Closed(d, q) && s in q.subgroups
    ensures var p := Parts(q.lvl, {}, RequiredGroups(d, {s}), {s}); Normal(d, p) && Accessible(q, p)
  {
    var required := RequiredGroups(d, {s});
    assert required <= RequiredGroups(d, q.subgroups);
    SeesOwnGroups(required);
    SeesMore(required, q.groups, required);
  }

  /** A text read back as `q` in place of the maximum keeps both classifications from whoever may not see them exactly
      when it names no more groups and no more subgroups than the maximum, and names some where the maximum does. */
  lemma MaxGuards(d: Definition, a: Parts, b: Parts, q: Parts)
    requires NoGroupRules(d) && Normal(d, a) && Normal(d, b) && MaxOf(a, b).Valid? && ReadAs(d, MaxOf(a, b).value, q)
    ensures var m := MaxOf(a, b).value;
            Guards(d, q, a, b) <==> NoWider(q.groups, m.groups) && NoWider(q.subgroups, m.subgroups)
  {
    var m := MaxOf(a, b).value;
    MaxClosed(d, a, b);
    MaxRaised(d, a, b);
    if !NoWider(q.groups, m.groups) {
      var gs := WiderShows(q.groups, m.groups);
      NormalUser(d, m, q, gs, q.subgroups);
      SeesOwnGroups(q.subgroups);
      BeyondMax(gs, a.groups, b.groups);
      assert Accessible(Parts(m.lvl, m.req, gs, q.subgroups), q);
    } else if !NoWider(q.subgroups, m.subgroups) {
      var ss := WiderShows(q.subgroups, m.subgroups);
      NormalUser(d, m, q, q.groups, ss);
      SeesOwnGroups(q.groups);
      BeyondMax(ss, a.subgroups, b.subgroups);
      assert Accessible(Parts(m.lvl, m.req, q.groups, ss), q);
    } else {
      forall user | Accessible(user, q) ensures Accessible(user, a) && Accessible(user, b) {
        NoWiderSees(user.groups, q.groups, m.groups);
        NoWiderSees(user.subgroups, q.subgroups, m.subgroups);
        MaxBounds(user, a, b);
      }
    }
  }

  /** A text read back as `q` in place of the minimum is open to both sides exactly when who sees the minimum's groups
      and subgroups sees those of `q`. */
  lemma MinOpen(d: Definition, a: Parts, b: Parts, q: Parts)
    requires NoGroupRules(d) && Normal(d, a) && Normal(d, b) && ReadAs(d, MinOf(a, b), q)
    ensures var m := MinOf(a, b);
            OpenTo(d, q, a, b) <==> NoWider(m.groups, q.groups) && NoWider(m.subgroups, q.subgroups)
  {
    var m := MinOf(a, b);
    if !NoWider(m.groups, q.groups) {
      MinHides(d, a, b, q);
    } else if !NoWider(m.subgroups, q.subgroups) {
      MinHidesSubs(d, a, b, q);
    } else {
      forall user | Accessible(user, a) || Accessible(user, b) ensures Accessible(user, q) {
        MinBounds(user, a, b);
        NoWiderSees(user.groups, m.groups, q.groups);
        NoWiderSees(user.subgroups, m.subgroups, q.subgroups);
      }
    }
  }

  lemma MinHides(d: Definition, a: Parts, b: Parts, q: Parts)
    requires NoGroupRules(d) && Normal(d, a) && Normal(d, b) && !NoWider(MinOf(a, b).groups, q.groups)
    ensures !OpenTo(d, q, a, b)
  {
    MinClosed(d, a, b);
    var gs := WiderShows(MinOf(a, b).groups, q.groups);
    MinSide(gs, a.groups, b.groups);
    var side := if CanSeeGroups(gs, a.groups) then a else b;
    assert Closed(d, MinOf(a, b).(subgroups := side.subgroups)) by {
      NoRulesClose(d, MinOf(a, b).(subgroups := side.subgroups));
    }
    NormalUser(d, side, MinOf(a, b).(subgroups := side.subgroups), gs, side.subgroups);
    SeesOwnGroups(side.subgroups);
    assert Accessible(Parts(side.lvl, side.req, gs, side.subgroups), side);
  }

  lemma MinHidesSubs(d: Definition, a: Parts, b: Parts, q: Parts)
    requires NoGroupRules(d) && Normal(d, a) && Normal(d, b) && !NoWider(MinOf(a, b).subgroups, q.subgroups)
    ensures !OpenTo(d, q, a, b)
  {
    MinClosed(d, a, b);
    var ss := WiderShows(MinOf(a, b).subgroups, q.subgroups);
    MinSide(ss, a.subgroups, b.subgroups);
    var side := if CanSeeGroups(ss, a.subgroups) then a else b;
    assert Closed(d, MinOf(a, b).(groups := side.groups)) by {
      NoRulesClose(d, MinOf(a, b).(groups := side.groups));
    }
    NormalUser(d, side, MinOf(a, b).(groups := side.groups), side.groups, ss);
    SeesOwnGroups(side.groups);
    assert Accessible(Parts(side.lvl, side.req, side.groups, ss), side);
  }

  /** A user read back as `q` in place of the intersection sees only what both see exactly when it has no group and no
      subgroup that one of them lacks. */
  lemma IntersectSound(d: Definition, a: Parts, b: Parts, q: Parts)
    requires ReadAs(d, IntersectOf(a, b), q)
    ensures var m := IntersectOf(a, b);
            GrantsShared(d, q, a, b) <==> q.groups <= m.groups && q.subgroups <= m.subgroups
  {
    var m := IntersectOf(a, b);
    if GrantsShared(d, q, a, b) {
      forall g | g in q.groups ensures g in m.groups {
        PartsOfGroup(d, q, g);
        assert Accessible(a, Parts(q.lvl, {}, {g}, {})) && Accessible(b, Parts(q.lvl, {}, {g}, {}));
      }
      forall s | s in q.subgroups ensures s in m.subgroups {
        PartsOfSub(d, q, s);
        assert Accessible(a, Parts(q.lvl, {}, RequiredGroups(d, {s}), {s}));
        assert Accessible(b, Parts(q.lvl, {}, RequiredGroups(d, {s}), {s}));
      }
    }
  }

  /** A user read back as `q` in place of the combination sees all that either sees exactly when it has all their groups
      and subgroups. */
  lemma BuildSeesAll(d: Definition, a: Parts, b: Parts, q: Parts)
    requires Closed(d, a) && Closed(d, b) && ReadAs(d, BuildOf(a, b), q)
    ensures var m := BuildOf(a, b);
            GrantsAll(d, q, a, b) <==> m.groups <= q.groups && m.subgroups <= q.subgroups
  {
    var m := BuildOf(a, b);
    if GrantsAll(d, q, a, b) {
      forall g | g in m.groups ensures g in q.groups {
        var side := if g in a.groups then a else b;
        PartsOfGroup(d, side, g);
        assert Accessible(q, Parts(side.lvl, {}, {g}, {}));
      }
      forall s | s in m.subgroups ensures s in q.subgroups {
        var side := if s in a.subgroups then a else b;
        PartsOfSub(d, side, s);
        assert Accessible(q, Parts(side.lvl, {}, RequiredGroups(d, {s}), {s}));
      }
    }
    if m.groups <= q.groups && m.subgroups <= q.subgroups {
      forall p | Accessible(a, p) || Accessible(b, p) ensures Accessible(q, p) {
        BuildComplete(a, b, p);
        SeesMore(m.groups, q.groups, p.groups);
        SeesMore(m.subgroups, q.subgroups, p.subgroups);
      }
    }
  }

  // ---------------------------------------- the combinations are the best that can be had

  /** Whoever may see `q` may see `p`. */
  ghost predicate Narrower(d: Definition, q: Parts, p: Parts) {
    forall user :: Normal(d, user) && Accessible(user, q) ==> Accessible(user, p)
  }

  /** The user `u` sees all that `v` does. */
  ghost predicate Outranks(d: Definition, u: Parts, v: Parts) {
    forall p :: Normal(d, p) && Accessible(v, p) ==> Accessible(u, p)
  }

  /** `q` asks for all that `p` asks for. */
  predicate Above(q: Parts, p: Parts) {
    p.lvl <= q.lvl && p.req <= q.req && NoWider(q.groups, p.groups) && NoWider(q.subgroups, p.subgroups)
  }

  /** `u` has all that `v` has. */
  predicate Has(u: Parts, v: Parts) {
    v.lvl <= u.lvl && v.req <= u.req && v.groups <= u.groups && v.subgroups <= u.subgroups
  }

  lemma NarrowerIsAbove(d: Definition, q: Parts, p: Parts)
    requires NoGroupRules(d) && Normal(d, q)
    ensures Narrower(d, q, p) <==> Above(q, p)
  {
    SeesOwnGroups(q.groups);
    SeesOwnGroups(q.subgroups);
    assert Accessible(q, q);
    if !NoWider(q.groups, p.groups) {
      var gs := WiderShows(q.groups, p.groups);
      NormalUser(d, q, q, gs, q.subgroups);
      assert Accessible(Parts(q.lvl, q.req, gs, q.subgroups), q);
    } else if !NoWider(q.subgroups, p.subgroups) {
      var ss := WiderShows(q.subgroups, p.subgroups);
      NormalUser(d, q, q, q.groups, ss);
      assert Accessible(Parts(q.lvl, q.req, q.groups, ss), q);
    } else {
      forall user | Accessible(user, q) ensures Above(q, p) ==> Accessible(user, p) {
        NoWiderSees(user.groups, q.groups, p.groups);
        NoWiderSees(user.subgroups, q.subgroups, p.subgroups);
      }
    }
  }

  lemma OutranksIsHaving(d: Definition, u: Parts, v: Parts)
    requires Normal(d, v)
    ensures Outranks(d, u, v) <==> Has(u, v)
  {
    var bare := Parts(v.lvl, v.req, {}, {});
    assert Normal(d, bare) && Accessible(v, bare);
    if Outranks(d, u, v) {
      forall g | g in v.groups ensures g in u.groups {
        PartsOfGroup(d, v, g);
        assert Accessible(u, Parts(v.lvl, {}, {g}, {}));
      }
      forall s | s in v.subgroups ensures s in u.subgroups {
        PartsOfSub(d, v, s);
        assert Accessible(u, Parts(v.lvl, {}, RequiredGroups(d, {s}), {s}));
      }
    }
    if Has(u, v) {
      forall p | Accessible(v, p) ensures Accessible(u, p) {
        SeesMore(v.groups, u.groups, p.groups);
        SeesMore(v.subgroups, u.subgroups, p.subgroups);
      }
    }
  }

  lemma AboveBoth(q: set<string>, a: set<string>, b: set<string>)
    ensures NoWider(q, a) && NoWider(q, b) <==> MaxGroups(a, b).Valid? && NoWider(q, MaxGroups(a, b).value)
    ensures NoWider(a, q) && NoWider(b, q) <==> NoWider(MinGroups(a, b), q)
  {
    if a != {} && b != {} {
      if NoWider(q, a) && NoWider(q, b) {
        var g :| g in q;
        assert g in a * b;
      }
    } else {
      assert a + b == a || a + b == b;
    }
  }

  /** The maximum is the least marking that keeps both: a marking keeps both from whoever may not see them exactly when
      there is a maximum and who sees the marking sees that. */
  lemma MaxIsLeast(d: Definition, a: Parts, b: Parts, q: Parts)
    requires NoGroupRules(d) && Normal(d, a) && Normal(d, b) && Normal(d, q)
    ensures Guards(d, q, a, b) <==> MaxOf(a, b).Valid? && Narrower(d, q, MaxOf(a, b).value)
  {
    NarrowerIsAbove(d, q, a);
    NarrowerIsAbove(d, q, b);
    assert Guards(d, q, a, b) <==> Narrower(d, q, a) && Narrower(d, q, b);
    AboveBoth(q.groups, a.groups, b.groups);
    AboveBoth(q.subgroups, a.subgroups, b.subgroups);
    if MaxOf(a, b).Valid? {
      NarrowerIsAbove(d, q, MaxOf(a, b).value);
    }
  }

  /** The minimum is the greatest marking open to both sides: a marking is open to both exactly when who sees the
      minimum sees it. */
  lemma MinIsGreatest(d: Definition, a: Parts, b: Parts, q: Parts)
    requires NoGroupRules(d) && Normal(d, a) && Normal(d, b)
    ensures OpenTo(d, q, a, b) <==> Narrower(d, MinOf(a, b), q)
  {
    NarrowerIsAbove(d, a, q);
    NarrowerIsAbove(d, b, q);
    assert OpenTo(d, q, a, b) <==> Narrower(d, a, q) && Narrower(d, b, q);
    AboveBoth(q.groups, a.groups, b.groups);
    AboveBoth(q.subgroups, a.subgroups, b.subgroups);
    MinClosed(d, a, b);
    MinRaised(d, a, b);
    NarrowerIsAbove(d, MinOf(a, b), q);
  }

  /** The intersection is the greatest user that sees only what both see. */
  lemma IntersectIsGreatest(d: Definition, a: Parts, b: Parts, q: Parts)
    requires Normal(d, q)
    ensures GrantsShared(d, q, a, b) <==> Outranks(d, IntersectOf(a, b), q)
  {
    OutranksIsHaving(d, a, q);
    OutranksIsHaving(d, b, q);
    OutranksIsHaving(d, IntersectOf(a, b), q);
    assert GrantsShared(d, q, a, b) <==> Outranks(d, a, q) && Outranks(d, b, q);
  }

  /** The combination is the least user that sees all that either sees. */
  lemma BuildIsLeast(d: Definition, a: Parts, b: Parts, q: Parts)
    requires Normal(d, a) && Normal(d, b)
    ensures GrantsAll(d, q, a, b) <==> Outranks(d, q, BuildOf(a, b))
  {
    OutranksIsHaving(d, q, a);
    OutranksIsHaving(d, q, b);
    assert GrantsAll(d, q, a, b) <==> Outranks(d, q, a) && Outranks(d, q, b);
    var m := BuildOf(a, b);
    if Has(q, a) && Has(q, b) {
      forall p | Accessible(m, p) ensures Accessible(q, p) {
        SeesMore(m.groups, q.groups, p.groups);
        SeesMore(m.subgroups, q.subgroups, p.subgroups);
      }
    }
    if Outranks(d, q, m) {
      forall p | Normal(d, p) && (Accessible(a, p) || Accessible(b, p)) ensures Accessible(q, p) {
        BuildComplete(a, b, p);
      }
    }
  }

  // ---------------------------------------------------------------- required groups

  lemma MaxSubgroupsFrom(d: Definition, a: Parts, b: Parts)
    requires Closed(d, a) && Closed(d, b) && MaxOf(a, b).Valid?
    ensures RequiredGroups(d, MaxOf(a, b).value.subgroups) <= a.groups + b.groups
  {
    RequiredOfUnion(d, a.subgroups, b.subgroups);
    assert MaxOf(a, b).value.subgroups <= a.subgroups + b.subgroups;
  }

  /** With required groups the printed maximum bounds access exactly when it already held every
      group its subgroups require; otherwise a user of one subgroup with the group it requires gets past one side. */
  lemma MaxGuardsWithRequiredGroups(d: Definition, a: Parts, b: Parts)
    requires Normal(d, a) && Normal(d, b) && MaxOf(a, b).Valid? && Fits(d, MaxOf(a, b).value)
    ensures var m := MaxOf(a, b).value;
            Guards(d, Filled(d, m), a, b) <==> RequiredGroups(d, m.subgroups) <= m.groups
  {
    var m := MaxOf(a, b).value;
    MaxSubgroupsFrom(d, a, b);
    if RequiredGroups(d, m.subgroups) <= m.groups {
      assert Filled(d, m) == m;
      forall user | Accessible(user, Filled(d, m)) ensures Accessible(user, a) && Accessible(user, b) {
        MaxBounds(user, a, b);
      }
    } else {
      var s :| s in m.subgroups && ParamsOf(d, s).requireGroup.Some? && ParamsOf(d, s).requireGroup.value !in m.groups;
      UserOfOneSub(d, a, b, s);
    }
  }

  lemma WithinLimitsLess(d: Definition, m: Parts, subgroups: set<string>, groups: set<string>)
    requires Fits(d, m) && subgroups <= m.subgroups && groups <= Filled(d, m).groups
    ensures WithinLimits(d, subgroups, groups)
  {
  }

  /** A user with a subgroup of the maximum and the group it requires. */
  lemma NormalWithRequired(d: Definition, a: Parts, b: Parts, s: string, g: string)
    requires Normal(d, a) && Normal(d, b) && MaxOf(a, b).Valid? && Fits(d, MaxOf(a, b).value)
    requires s in MaxOf(a, b).value.subgroups && ParamsOf(d, s).requireGroup == Some(g)
    requires RequiredGroups(d, MaxOf(a, b).value.subgroups) <= a.groups + b.groups
    ensures var (m, user) := (MaxOf(a, b).value, Parts(MaxOf(a, b).value.lvl, MaxOf(a, b).value.req, {g}, {s}));
            Normal(d, user) && Accessible(user, Filled(d, m))
  {
    var m := MaxOf(a, b).value;
    MaxRaised(d, a, b);
    assert RequiredGroups(d, {s}) == {g};
    assert g in RequiredGroups(d, m.subgroups);
    WithinLimitsLess(d, m, {s}, {g});
  }

  lemma UserOfOneSub(d: Definition, a: Parts, b: Parts, s: string)
    requires Normal(d, a) && Normal(d, b) && MaxOf(a, b).Valid? && Fits(d, MaxOf(a, b).value)
    requires s in MaxOf(a, b).value.subgroups
    requires ParamsOf(d, s).requireGroup.Some? && ParamsOf(d, s).requireGroup.value !in MaxOf(a, b).value.groups
    ensures !Guards(d, Filled(d, MaxOf(a, b).value), a, b)
  {
    var m, g := MaxOf(a, b).value, ParamsOf(d, s).requireGroup.value;
    var user := Parts(m.lvl, m.req, {g}, {s});
    MaxSubgroupsFrom(d, a, b);
    assert g in RequiredGroups(d, m.subgroups);
    NormalWithRequired(d, a, b, s, g);
    assert a.groups != {} && b.groups != {} && m.groups == a.groups * b.groups;
    assert !CanSeeGroups({g}, a.groups) || !CanSeeGroups({g}, b.groups);
  }

  /** With required groups the printed minimum stays visible to both sides exactly when it already
      held every group its subgroups require. */
  lemma MinOpenWithRequiredGroups(d: Definition, a: Parts, b: Parts)
    requires Normal(d, a) && Normal(d, b)
    ensures var m := MinOf(a, b);
            OpenTo(d, Filled(d, m), a, b) <==> RequiredGroups(d, m.subgroups) <= m.groups
  {
    var m := MinOf(a, b);
    RequiredOfUnion(d, a.subgroups, b.subgroups);
    if RequiredGroups(d, m.subgroups) <= m.groups {
      assert Filled(d, m) == m;
      forall user | Accessible(user, a) || Accessible(user, b) ensures Accessible(user, Filled(d, m)) {
        MinBounds(user, a, b);
      }
    } else {
      SeesOwnGroups(a.subgroups);
      SeesOwnGroups(b.subgroups);
      assert a.groups == {} || b.groups == {};
      var side := if a.groups == {} then a else b;
      assert Accessible(side, side);
      assert !CanSeeGroups({}, Filled(d, m).groups);
    }
  }

  // ---------------------------------------------------------------- max is a partial semilattice

  lemma MaxCommutative(a: Parts, b: Parts)
    ensures MaxOf(a, b) == MaxOf(b, a)
  {
    assert a.groups * b.groups == b.groups * a.groups && a.groups + b.groups == b.groups + a.groups;
    assert a.subgroups * b.subgroups == b.subgroups * a.subgroups;
    assert a.subgroups + b.subgroups == b.subgroups + a.subgroups;
    assert a.req + b.req == b.req + a.req;
  }

  lemma MaxIdempotent(a: Parts)
    ensures MaxOf(a, a) == Valid(a)
  {
    assert a.groups * a.groups == a.groups && a.groups + a.groups == a.groups;
    assert a.subgroups * a.subgroups == a.subgroups && a.subgroups + a.subgroups == a.subgroups;
    assert a.req + a.req == a.req;
  }

  function MaxThen(a: Result<Parts>, b: Result<Parts>): Result<Parts> {
    if a.Valid? && b.Valid? then MaxOf(a.value, b.value) else Invalid
  }

  function MaxGroupsThen(a: Result<set<string>>, b: Result<set<string>>): Result<set<string>> {
    if a.Valid? && b.Valid? then MaxGroups(a.value, b.value) else Invalid
  }

  lemma MaxGroupsAssociative(a: set<string>, b: set<string>, c: set<string>)
    ensures MaxGroupsThen(MaxGroups(a, b), Valid(c)) == MaxGroupsThen(Valid(a), MaxGroups(b, c))
  {
    assert a * b * c == a * (b * c);
    assert a + b + c == a + (b + c);
    if a == {} {
      assert a + b == b;
      assert forall x: set<string> :: a + x == x;
    }
    if b == {} { assert a + b == a && b + c == c; }
    if c == {} { assert b + c == b; assert forall x: set<string> :: x + c == x; }
  }

  /** Either grouping of three classifications gives the same maximum, or fails. */
  lemma MaxAssociative(a: Parts, b: Parts, c: Parts)
    ensures MaxThen(MaxOf(a, b), Valid(c)) == MaxThen(Valid(a), MaxOf(b, c))
  {
    MaxGroupsAssociative(a.groups, b.groups, c.groups);
    MaxGroupsAssociative(a.subgroups, b.subgroups, c.subgroups);
    assert a.req + b.req + c.req == a.req + (b.req + c.req);
    assert Max(Max(a.lvl, b.lvl), c.lvl) == Max(a.lvl, Max(b.lvl, c.lvl));
  }
}
