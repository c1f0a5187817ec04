/** Values a route adds for the roles a caller holds:
    `applyRoleContexts` of httpserver/middlewares/authorization.go. */
module RoleContexts {
  import opened Prelude

  type Values = map<string, int>

  datatype RoleContext = RoleContext(role: string, values: Values)

  predicate Applies(held: set<string>, e: RoleContext) { e.role in held }

  /** The entry applies and says so. */
  predicate Says(held: set<string>, e: RoleContext, key: string, value: int) {
    e.role in held && key in e.values && e.values[key] == value
  }

  /** No two applicable entries disagree on a key. */
  ghost predicate Consistent(held: set<string>, extras: seq<RoleContext>) {
    forall d, e, key, v, w | d in extras && e in extras && Says(held, d, key, v) && Says(held, e, key, w) :: v == w
  }

  /** The map says exactly what some applicable entry says. */
  ghost predicate IsUnion(held: set<string>, extras: seq<RoleContext>, m: Values) {
    && (forall key | key in m :: exists e <- extras :: Says(held, e, key, m[key]))
    && (forall e, key, v | e in extras && Says(held, e, key, v) :: key in m && m[key] == v)
  }

  class Context {
    var values: Values

    constructor (values: Values)
      ensures this.values == values
    {
      this.values := values;
    }

    method Put(key: string, value: int)
      modifies this
      ensures values == old(values)[key := value]
    {
      values := values[key := value];
    }
  }

  /** The values with those of the applicable entries added. */
  ghost predicate Added(held: set<string>, extras: seq<RoleContext>, before: Values, after: Values) {
    exists staged :: IsUnion(held, extras, staged) && after == before + staged
  }

  /** Stages everything before it commits anything; the values of an entry and the staged
      values come in any order. */
  method Apply(ctx: Context, held: set<string>, extras: seq<RoleContext>) returns (conflict: Option<string>)
    modifies ctx
    ensures conflict.None? <==> Consistent(held, extras)
    ensures conflict.Some? ==> ctx.values == old(ctx.values) && Disputed(held, extras, conflict.value)
    ensures conflict.None? ==> Added(held, extras, old(ctx.values), ctx.values)
    ensures conflict.None? ==> forall e, key | e in extras && e.role in held && key in e.values ::
              key in ctx.values && ctx.values[key] == e.values[key]
  {
    var staged: Values := map[];
    for i := 0 to |extras|
      invariant ctx.values == old(ctx.values)
      invariant IsUnion(held, extras[..i], staged)
    {
      assert extras[..i + 1] == extras[..i] + [extras[i]];
      if Applies(held, extras[i]) {
        var before := staged;
        conflict, staged := Stage(before, extras[i].values);
        if conflict.Some? {
          Conflicts(held, extras, i, before, conflict.value);
          return;
        }
        UnionGrows(held, extras[..i], extras[i], before, staged);
      } else {
        UnionGrows(held, extras[..i], extras[i], staged, staged);
      }
    }
    assert extras[..|extras|] == extras;
    UnionMeansConsistent(held, extras, staged);
    forall e, key | e in extras && e.role in held && key in e.values
      ensures key in staged && staged[key] == e.values[key]
    {
      assert Says(held, e, key, e.values[key]);
    }
    conflict := None;
    Commit(ctx, staged);
  }

  /** The inner loop, over the values of one entry. */
  method Stage(before: Values, values: Values) returns (conflict: Option<string>, staged: Values)
    ensures conflict.Some? ==> conflict.value in before && conflict.value in values &&
                               before[conflict.value] != values[conflict.value]
    ensures conflict.None? ==> staged == before + values
    ensures conflict.None? ==> forall key | key in before && key in values :: before[key] == values[key]
  {
    staged := before;
    var keys := values.Keys;
    while keys != {}
      invariant keys <= values.Keys && staged.Keys == before.Keys + (values.Keys - keys)
      invariant forall key | key in before :: staged[key] == before[key]
      invariant forall key | key in values && key !in keys :: staged[key] == values[key]
    {
      var key :| key in keys;
      if key in staged && staged[key] != values[key] { return Some(key), staged; }
      staged := staged[key := values[key]];
      keys := keys - {key};
    }
    conflict := None;
  }

  method Commit(ctx: Context, staged: Values)
    modifies ctx
    ensures ctx.values == old(ctx.values) + staged
  {
    var keys := staged.Keys;
    while keys != {}
      invariant keys <= staged.Keys && ctx.values.Keys == old(ctx.values).Keys + (staged.Keys - keys)
      invariant forall key | key in staged && key !in keys :: ctx.values[key] == staged[key]
      invariant forall key | key in old(ctx.values) && (key !in staged || key in keys) ::
                  ctx.values[key] == old(ctx.values)[key]
    {
      var key :| key in keys;
      ctx.Put(key, staged[key]);
      keys := keys - {key};
    }
  }

  lemma UnionMeansConsistent(held: set<string>, extras: seq<RoleContext>, m: Values)
    requires IsUnion(held, extras, m)
    ensures Consistent(held, extras)
  {
  }

  ghost predicate Disputed(held: set<string>, extras: seq<RoleContext>, key: string) {
    exists d, e, v, w | d in extras && e in extras :: Says(held, d, key, v) && Says(held, e, key, w) && v != w
  }

  lemma Conflicts(held: set<string>, extras: seq<RoleContext>, i: nat, staged: Values, key: string)
    requires i < |extras| && IsUnion(held, extras[..i], staged) && Applies(held, extras[i])
    requires key in staged && key in extras[i].values
    requires staged[key] != extras[i].values[key]
    ensures !Consistent(held, extras) && Disputed(held, extras, key)
  {
    var d :| d in extras[..i] && Says(held, d, key, staged[key]);
    assert Says(held, extras[i], key, extras[i].values[key]);
    assert d in extras;
  }

  lemma UnionGrows(held: set<string>, extras: seq<RoleContext>, e: RoleContext, before: Values, staged: Values)
    requires IsUnion(held, extras, before)
    requires Applies(held, e) ==> staged == before + e.values
    requires Applies(held, e) ==> forall key | key in before && key in e.values :: before[key] == e.values[key]
    requires !Applies(held, e) ==> staged == before
    ensures IsUnion(held, extras + [e], staged)
  {
    forall key | key in staged ensures exists d <- extras + [e] :: Says(held, d, key, staged[key]) {
      if key in before {
        var d :| d in extras && Says(held, d, key, before[key]);
        assert d in extras + [e];
      } else {
        assert Says(held, e, key, staged[key]);
      }
    }
    forall d, key, v | d in extras + [e] && Says(held, d, key, v) ensures key in staged && staged[key] == v {
      if d in extras { assert key in before && before[key] == v; }
    }
  }

  // ----- order independence -----------------------------------------------

  /** Lists with the same entries, in whatever order and however often, conflict together
      and add the same values. */
  lemma OrderDoesNotMatter(held: set<string>, a: seq<RoleContext>, b: seq<RoleContext>, m: Values, n: Values)
    requires forall e :: e in a <==> e in b
    ensures Consistent(held, a) <==> Consistent(held, b)
    ensures IsUnion(held, a, m) && IsUnion(held, b, n) ==> m == n
  {
    if IsUnion(held, a, m) && IsUnion(held, b, n) {
      forall key ensures key in m <==> key in n {
        if key in m {
          var e :| e in a && Says(held, e, key, m[key]);
        }
        if key in n {
          var e :| e in b && Says(held, e, key, n[key]);
        }
      }
      forall key | key in m ensures m[key] == n[key] {
        var e :| e in a && Says(held, e, key, m[key]);
      }
    }
  }
}
