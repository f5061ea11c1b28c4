/** Redis keys: the four business families and their textual form. */
module Keys {
  import opened Types

  datatype Key =
    | PersonalKey(tenant: Tenant, user: User)
    | TenantKey(tenant: Tenant, user: User)
    | TotalKey(tenant: Tenant)
    | OpKey(tenant: Tenant, user: User)

  const SPACE_PREFIX := "bs-notify-hub:"

  /** The business part of a key, before the service prefix is put in front. */
  function Prefix(k: Key): string {
    match k
    case PersonalKey(_, _) => "unread:personal:"
    case TenantKey(_, _) => "unread:tenant:"
    case TotalKey(_) => "broadcast:total:"
    case OpKey(_, _) => "broadcast:op:"
  }

  function Suffix(k: Key): string {
    if k.TotalKey? then k.tenant else k.tenant + ":" + k.user
  }

  function Render(k: Key): string {
    SPACE_PREFIX + (Prefix(k) + Suffix(k))
  }

  /** A text splits in one way into a colon-free head, a colon and a tail. */
  lemma SplitIsUnique(t: string, u: string, t': string, u': string)
    requires ':' !in t && ':' !in t'
    requires t + ":" + u == t' + ":" + u'
    ensures t == t' && u == u'
  {
    var s, s' := t + ":" + u, t' + ":" + u';
    assert s[|t|] == ':' && s'[|t'|] == ':';
    assert |t| == |t'| by {
      var short := if |t| < |t'| then |t| else |t'|;
      assert forall i | 0 <= i < short :: s[i] == t[i] && s'[i] == t'[i];
    }
    assert t == s[..|t|] && t' == s'[..|t'|];
    assert u == s[|t| + 1..] && u' == s'[|t'| + 1..];
  }

  /** Two equal texts agree on the common part of any two prefixes. */
  lemma CommonPrefix(p: string, x: string, q: string, y: string)
    requires p + x == q + y
    ensures forall i | 0 <= i < |p| && i < |q| :: p[i] == q[i]
    ensures |p| == |q| ==> p == q && x == y
  {
    var s := p + x;
    assert forall i | 0 <= i < |p| :: s[i] == p[i];
    assert forall i | 0 <= i < |q| :: s[i] == q[i];
    if |p| == |q| {
      assert x == s[|p|..] && y == s[|q|..];
    }
  }

  /** Keys of different families never collide, whatever the tenants contain. */
  lemma FamiliesAreDisjoint(a: Key, b: Key)
    requires Render(a) == Render(b)
    ensures Prefix(a) == Prefix(b) && Suffix(a) == Suffix(b)
  {
    CommonPrefix(SPACE_PREFIX, Prefix(a) + Suffix(a), SPACE_PREFIX, Prefix(b) + Suffix(b));
    CommonPrefix(Prefix(a), Suffix(a), Prefix(b), Suffix(b));
    SameFamily(a, b);
  }

  /** Characters 0, 7 and 10 of the prefix tell the four families apart. */
  lemma SameFamily(a: Key, b: Key)
    requires forall i | 0 <= i < |Prefix(a)| && i < |Prefix(b)| :: Prefix(a)[i] == Prefix(b)[i]
    ensures Prefix(a) == Prefix(b)
    ensures a.PersonalKey? == b.PersonalKey? && a.TenantKey? == b.TenantKey? && a.TotalKey? == b.TotalKey?
  {
    assert Prefix(a)[0] == Prefix(b)[0] && Prefix(a)[7] == Prefix(b)[7] && Prefix(a)[10] == Prefix(b)[10];
  }

  /** On colon-free tenants the textual key determines family, tenant and user. */
  lemma RenderIsInjective(a: Key, b: Key)
    requires ':' !in a.tenant && ':' !in b.tenant
    ensures Render(a) == Render(b) <==> a == b
  {
    if Render(a) == Render(b) {
      FamiliesAreDisjoint(a, b);
      SameFamily(a, b);
      if !a.TotalKey? {
        SplitIsUnique(a.tenant, a.user, b.tenant, b.user);
      }
    }
  }

  // ---- Tenants with colons ----

  predicate UserKeys(a: Key, b: Key) {
    Prefix(a) == Prefix(b) && !a.TotalKey? && !b.TotalKey?
  }

  /** The tenant of `b` begins with the tenant of `a` and a colon; the user of `a` takes up the rest. */
  predicate Nested(a: Key, b: Key)
    requires UserKeys(a, b)
  {
    a.tenant + ":" <= b.tenant && a.user == b.tenant[|a.tenant| + 1..] + ":" + b.user
  }

  lemma NestedRendersSame(a: Key, b: Key)
    requires UserKeys(a, b) && Nested(a, b)
    ensures Render(a) == Render(b) && a != b
  {
    var rest := b.tenant[|a.tenant| + 1..];
    assert b.tenant == a.tenant + ":" + rest;
    assert a.tenant + ":" + (rest + ":" + b.user) == (a.tenant + ":" + rest) + ":" + b.user;
    assert |b.tenant| > |a.tenant|;
  }

  /** Of two ways to cut one text at a colon, the later cut nests in the earlier one. */
  lemma LaterCutNests(t: string, u: string, t': string, u': string)
    requires t + ":" + u == t' + ":" + u' && |t| < |t'|
    ensures t' == t + ":" + t'[|t| + 1..] && u == t'[|t| + 1..] + ":" + u'
  {
    var s := t + ":" + u;
    assert t' == s[..|t'|] && t + ":" == s[..|t| + 1];
    assert s[..|t'|] == s[..|t| + 1] + s[|t| + 1..|t'|];
    assert u == s[|t| + 1..];
    assert s[|t'|..] == ":" + u';
  }

  /** Cut at the same place, the parts agree, so distinct keys are cut at different places. */
  lemma SameCut(a: Key, b: Key)
    requires UserKeys(a, b) && Suffix(a) == Suffix(b) && |a.tenant| == |b.tenant|
    ensures a.tenant == b.tenant && a.user == b.user
  {
    var s, s' := Suffix(a), Suffix(b);
    assert a.tenant == s[..|a.tenant|] && b.tenant == s'[..|b.tenant|];
    assert a.user == s[|a.tenant| + 1..] && b.user == s'[|b.tenant| + 1..];
  }

  /** Two distinct keys of users render the same if and only if one tenant nests in the other. */
  lemma CollideIffNested(a: Key, b: Key)
    requires UserKeys(a, b)
    ensures Render(a) == Render(b) && a != b <==> Nested(a, b) || Nested(b, a)
  {
    if Render(a) == Render(b) && a != b {
      FamiliesAreDisjoint(a, b);
      SameFamily(a, b);
      if |a.tenant| < |b.tenant| {
        LaterCutNests(a.tenant, a.user, b.tenant, b.user);
      } else if |b.tenant| < |a.tenant| {
        LaterCutNests(b.tenant, b.user, a.tenant, a.user);
      } else {
        SameCut(a, b);
      }
    }
    if Nested(a, b) {
      NestedRendersSame(a, b);
    }
    if Nested(b, a) {
      NestedRendersSame(b, a);
    }
  }

  /** The users' key of a family, as `key` has it. */
  function Rekey(key: Key, t: Tenant, u: User): Key {
    match key
    case PersonalKey(_, _) => PersonalKey(t, u)
    case TenantKey(_, _) => TenantKey(t, u)
    case OpKey(_, _) => OpKey(t, u)
    case TotalKey(_) => TotalKey(t)
  }

  lemma NestedTenants(family: Key, t: Tenant, t': Tenant)
    requires !family.TotalKey? && t + ":" <= t'
    ensures Nested(Rekey(family, t, t'[|t| + 1..] + ":"), Rekey(family, t', ""))
  {
    assert t'[|t| + 1..] + ":" == t'[|t| + 1..] + ":" + "";
  }

  /** Two different tenants share a key for some two users if and only if one tenant with a colon begins the other. */
  lemma TenantsCollideIff(family: Key, t: Tenant, t': Tenant)
    requires !family.TotalKey? && t != t'
    ensures (exists u, u' :: Render(Rekey(family, t, u)) == Render(Rekey(family, t', u')))
            <==> t + ":" <= t' || t' + ":" <= t
  {
    if u, u' :| Render(Rekey(family, t, u)) == Render(Rekey(family, t', u')) {
      CollideIffNested(Rekey(family, t, u), Rekey(family, t', u'));
    }
    if t + ":" <= t' {
      NestedTenants(family, t, t');
      NestedRendersSame(Rekey(family, t, t'[|t| + 1..] + ":"), Rekey(family, t', ""));
    } else if t' + ":" <= t {
      NestedTenants(family, t', t);
      NestedRendersSame(Rekey(family, t', t[|t'| + 1..] + ":"), Rekey(family, t, ""));
    }
  }

  /** A colon inside a tenant ID lets two different users share one counter. */
  lemma ColonTenantsCollide()
    ensures PersonalKey("a:b", "c") != PersonalKey("a", "b:c")
    ensures Render(PersonalKey("a:b", "c")) == Render(PersonalKey("a", "b:c"))
  {
    assert "a:b" + ":" + "c" == "a" + ":" + "b:c";
  }
}
