/**
 * PurgeSchema of schema/i18n.go: the properties without a title are dropped, the others keep
 * their order and are purged in turn, every item is purged, and a node left without properties
 * has nil properties.
 */
module Purge {
  import opened Spec
  import opened Annotate

  /** The properties that have a title, in order. */
  function Titled(ps: seq<Property>): (r: seq<Property>)
    ensures |r| <= |ps|
    ensures forall k | 0 <= k < |r| :: r[k].schema.title != ""
  {
    if ps == [] then []
    else Titled(ps[..|ps| - 1]) + (if ps[|ps| - 1].schema.title != "" then [ps[|ps| - 1]] else [])
  }

  /** A property is kept exactly when it is one of the list and has a title. */
  lemma {:induction false} TitledMembers(ps: seq<Property>, p: Property)
    ensures p in Titled(ps) <==> p in ps && p.schema.title != ""
  {
    if ps != [] {
      var init := ps[..|ps| - 1];
      TitledMembers(init, p);
      assert ps == init + [ps[|ps| - 1]];
    }
  }

  /** The schema purged. */
  function Purged(s: Schema): (r: Schema)
    ensures r == s.(properties := r.properties, items := r.items) && |r.items| == |s.items|
    ensures r.properties.Props? ==> PropList(r) != []
    decreases s, 1
  {
    var kept := PurgedList(s, |PropList(s)|);
    s.(properties := if kept == [] then NoProps else Props(kept),
       items := seq(|s.items|, i requires 0 <= i < |s.items| => Purged(s.items[i])))
  }

  /** The first `n` properties of `s` with a title, each purged. */
  function PurgedList(s: Schema, n: nat): seq<Property>
    requires n <= |PropList(s)|
    decreases s, 0, n
  {
    if n == 0 then []
    else
      var p := s.properties.list[n - 1];
      PurgedList(s, n - 1) + (if p.schema.title != "" then [p.(schema := Purged(p.schema))] else [])
  }

  /** The kept properties are the titled ones, in order, each purged. */
  lemma {:induction false} PurgedListIsTitled(s: Schema, n: nat)
    requires n <= |PropList(s)|
    ensures var t := Titled(PropList(s)[..n]);
            && |PurgedList(s, n)| == |t|
            && forall k | 0 <= k < |t| :: PurgedList(s, n)[k] == t[k].(schema := Purged(t[k].schema))
  {
    if n > 0 {
      PurgedListIsTitled(s, n - 1);
      assert PropList(s)[..n][..n - 1] == PropList(s)[..n - 1];
    }
  }

  /**
   * PurgeSchema: every field but the properties and the items is kept; the properties are the
   * titled ones in order, each purged, and nil when there is none; every item is purged.
   */
  lemma PurgedShape(s: Schema)
    ensures var r := Purged(s);
            var t := Titled(PropList(s));
            && r == s.(properties := r.properties, items := r.items)
            && (r.properties.NoProps? <==> t == [])
            && |PropList(r)| == |t|
            && (forall k | 0 <= k < |t| :: PropList(r)[k] == t[k].(schema := Purged(t[k].schema)))
            && |r.items| == |s.items|
            && forall i | 0 <= i < |s.items| :: r.items[i] == Purged(s.items[i])
  {
    PurgedListIsTitled(s, |PropList(s)|);
    assert PropList(s)[..|PropList(s)|] == PropList(s);
  }

  /** Every property reachable through properties and items has a title. */
  predicate AllTitled(s: Schema)
    decreases s
  {
    && (s.properties.Props? ==> forall k | 0 <= k < |s.properties.list| ::
          s.properties.list[k].schema.title != "" && AllTitled(s.properties.list[k].schema))
    && forall i | 0 <= i < |s.items| :: AllTitled(s.items[i])
  }

  /** After PurgeSchema every property reachable through properties and items has a title. */
  lemma {:induction false} PurgedAllTitled(s: Schema)
    ensures AllTitled(Purged(s))
    decreases s
  {
    var r := Purged(s);
    var t := Titled(PropList(s));
    PurgedShape(s);
    forall k | 0 <= k < |PropList(r)| ensures AllTitled(PropList(r)[k].schema) {
      TitledMembers(PropList(s), t[k]);
      PurgedAllTitled(t[k].schema);
    }
    forall i | 0 <= i < |s.items| ensures AllTitled(r.items[i]) {
      PurgedAllTitled(s.items[i]);
    }
  }

  /** PurgeSchema twice is PurgeSchema once. */
  lemma {:induction false} PurgeIdempotent(s: Schema)
    ensures Purged(Purged(s)) == Purged(s)
    decreases s
  {
    var r := Purged(s);
    var t := Titled(PropList(s));
    PurgedShape(s);
    PurgedShape(r);
    forall k | 0 <= k < |t| ensures Purged(PropList(r)[k].schema) == PropList(r)[k].schema {
      TitledMembers(PropList(s), t[k]);
      PurgeIdempotent(t[k].schema);
    }
    assert Titled(PropList(r)) == PropList(r) by {
      AllTitledKept(PropList(r));
    }
    forall i | 0 <= i < |s.items| ensures Purged(r.items[i]) == r.items[i] {
      PurgeIdempotent(s.items[i]);
    }
    assert Purged(r).items == r.items;
    assert Purged(r).properties == r.properties by {
      if r.properties.Props? {
        assert PropList(Purged(r)) == PropList(r);
      }
    }
  }

  /** A list whose properties all have a title is kept whole. */
  lemma {:induction false} AllTitledKept(ps: seq<Property>)
    requires forall k | 0 <= k < |ps| :: ps[k].schema.title != ""
    ensures Titled(ps) == ps
  {
    if ps != [] {
      AllTitledKept(ps[..|ps| - 1]);
    }
  }

  /**
   * PurgeSchema on a schema reference; nil is left alone. The kept properties are collected in a
   * fresh list, then every item is purged in place.
   */
  method PurgeSchema(ref: SchemaRef?)
    modifies ref
    ensures ref != null ==> ref.value == Purged(old(ref.value))
  {
    if ref != null {
      PurgeNode(ref);
    }
  }

  method PurgeNode(ref: SchemaRef)
    modifies ref
    ensures ref.value == Purged(old(ref.value))
    decreases ref.value
  {
    ghost var s := ref.value;
    var list := PropList(ref.value);
    var kept: seq<Property> := [];
    for i := 0 to |list|
      invariant ref.value == s && kept == PurgedList(s, i)
    {
      var item := list[i];
      if item.schema.title != "" {
        var sub := new SchemaRef(item.schema);
        PurgeNode(sub);
        kept := kept + [item.(schema := sub.value)];
      }
    }
    ref.value := ref.value.(properties := if kept == [] then NoProps else Props(kept));
    for i := 0 to |ref.value.items|
      invariant ref.value == s.(properties := Purged(s).properties, items := ref.value.items)
      invariant |ref.value.items| == |s.items|
      invariant forall k | 0 <= k < |s.items| :: ref.value.items[k] == if k < i then Purged(s.items[k]) else s.items[k]
    {
      var sub := new SchemaRef(ref.value.items[i]);
      PurgeNode(sub);
      ref.value := ref.value.(items := ref.value.items[i := sub.value]);
    }
    assert ref.value.items == Purged(s).items;
  }
}
