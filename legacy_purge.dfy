/**
 * PurgeSchema of schema/schema.go, the older copy of the one in schema/i18n.go. It looks at the
 * node's type first: an object node drops its untitled properties and purges the others, and
 * leaves its items alone; a node that is an array and not an object purges its items and keeps
 * its properties; any other node is left as it is.
 */
module LegacyPurge {
  import opened Spec
  import Annotate
  import Purge

  /** The schema purged by the older code. */
  function Purged(s: Schema): (r: Schema)
    ensures r == s.(properties := r.properties, items := r.items) && |r.items| == |s.items|
    ensures r.properties != s.properties ==> "object" in s.types
    ensures r.items != s.items ==> "array" in s.types && "object" !in s.types
    decreases s, 1
  {
    if "object" in s.types then
      var kept := PurgedList(s, |PropList(s)|);
      s.(properties := if kept == [] then NoProps else Props(kept))
    else if "array" in s.types then
      s.(items := seq(|s.items|, i requires 0 <= i < |s.items| => Purged(s.items[i])))
    else s
  }

  /** The first `n` properties of `s` with a title, each purged. */
  function PurgedList(s: Schema, n: nat): seq<Property>
    requires n <= |PropList(s)|
    decreases s, 0, n
  {
    if n == 0 then []
    else
      var p := s.properties.list[n - 1];
      PurgedList(s, n - 1) + (if p.schema.title != "" then [p.(schema := Purged(p.schema))] else [])
  }

  /** The kept properties are the titled ones, in order, each purged. */
  lemma {:induction false} PurgedListIsTitled(s: Schema, n: nat)
    requires n <= |PropList(s)|
    ensures var t := Purge.Titled(PropList(s)[..n]);
            && |PurgedList(s, n)| == |t|
            && forall k | 0 <= k < |t| :: PurgedList(s, n)[k] == t[k].(schema := Purged(t[k].schema))
  {
    if n > 0 {
      PurgedListIsTitled(s, n - 1);
      assert PropList(s)[..n][..n - 1] == PropList(s)[..n - 1];
    }
  }

  /**
   * The older PurgeSchema, case by case: an object node keeps its titled properties in order,
   * each purged (nil when none), and its items as they are; an array node that is not an object
   * purges every item and keeps its properties; any other node is unchanged.
   */
  lemma PurgedShape(s: Schema)
    ensures var r := Purged(s);
            var t := Purge.Titled(PropList(s));
            && ("object" in s.types ==>
                  && r == s.(properties := r.properties)
                  && (r.properties.NoProps? <==> t == [])
                  && |PropList(r)| == |t|
                  && forall k | 0 <= k < |t| :: PropList(r)[k] == t[k].(schema := Purged(t[k].schema)))
            && ("object" !in s.types && "array" in s.types ==>
                  && r == s.(items := r.items)
                  && |r.items| == |s.items|
                  && forall i | 0 <= i < |s.items| :: r.items[i] == Purged(s.items[i]))
            && ("object" !in s.types && "array" !in s.types ==> r == s)
  {
    PurgedListIsTitled(s, |PropList(s)|);
    assert PropList(s)[..|PropList(s)|] == PropList(s);
  }

  /**
   * Every property the older purge reaches has a title: those of object nodes, and those below
   * the items of array nodes.
   */
  predicate ObjectsTitled(s: Schema)
    decreases s
  {
    && ("object" in s.types && s.properties.Props? ==> forall k | 0 <= k < |s.properties.list| ::
          s.properties.list[k].schema.title != "" && ObjectsTitled(s.properties.list[k].schema))
    && ("object" !in s.types && "array" in s.types ==> forall i | 0 <= i < |s.items| :: ObjectsTitled(s.items[i]))
  }

  /** After the older PurgeSchema every property it reaches has a title. */
  lemma {:induction false} PurgedObjectsTitled(s: Schema)
    ensures ObjectsTitled(Purged(s))
    decreases s
  {
    var r := Purged(s);
    var t := Purge.Titled(PropList(s));
    PurgedShape(s);
    if "object" in s.types {
      forall k | 0 <= k < |PropList(r)| ensures ObjectsTitled(PropList(r)[k].schema) {
        Purge.TitledMembers(PropList(s), t[k]);
        PurgedObjectsTitled(t[k].schema);
      }
    } else if "array" in s.types {
      forall i | 0 <= i < |s.items| ensures ObjectsTitled(r.items[i]) {
        PurgedObjectsTitled(s.items[i]);
      }
    }
  }

  /** The older PurgeSchema twice is the older PurgeSchema once. */
  lemma {:induction false} PurgeIdempotent(s: Schema)
    ensures Purged(Purged(s)) == Purged(s)
    decreases s, 1
  {
    if "object" in s.types {
      PurgeIdempotentObject(s);
    } else if "array" in s.types {
      PurgeIdempotentArray(s);
    } else {
      PurgedShape(s);
    }
  }

  /** On an object node: the kept properties are titled and already purged. */
  lemma {:induction false} PurgeIdempotentObject(s: Schema)
    requires "object" in s.types
    ensures Purged(Purged(s)) == Purged(s)
    decreases s, 0
  {
    var r := Purged(s);
    PurgedShape(s);
    PurgedShape(r);
    var t := Purge.Titled(PropList(s));
    forall k | 0 <= k < |t| ensures Purged(PropList(r)[k].schema) == PropList(r)[k].schema {
      Purge.TitledMembers(PropList(s), t[k]);
      PurgeIdempotent(t[k].schema);
    }
    assert Purge.Titled(PropList(r)) == PropList(r) by {
      Purge.AllTitledKept(PropList(r));
    }
    assert Purged(r).properties == r.properties by {
      if r.properties.Props? {
        assert PropList(Purged(r)) == PropList(r);
      }
    }
  }

  /** On an array node that is not an object: every item is already purged. */
  lemma {:induction false} PurgeIdempotentArray(s: Schema)
    requires "object" !in s.types && "array" in s.types
    ensures Purged(Purged(s)) == Purged(s)
    decreases s, 0
  {
    var r := Purged(s);
    PurgedShape(s);
    PurgedShape(r);
    forall i | 0 <= i < |s.items| ensures Purged(r.items[i]) == r.items[i] {
      PurgeIdempotent(s.items[i]);
    }
    assert Purged(r).items == r.items;
  }

  /** The older PurgeSchema on a schema reference; nil is left alone. */
  method PurgeSchema(ref: Annotate.SchemaRef?)
    modifies ref
    ensures ref != null ==> ref.value == Purged(old(ref.value))
  {
    if ref != null {
      PurgeNode(ref);
    }
  }

  method PurgeNode(ref: Annotate.SchemaRef)
    modifies ref
    ensures ref.value == Purged(old(ref.value))
    decreases ref.value
  {
    ghost var s := ref.value;
    if "object" in ref.value.types {
      var list := PropList(ref.value);
      var kept: seq<Property> := [];
      for i := 0 to |list|
        invariant ref.value == s && kept == PurgedList(s, i)
      {
        var item := list[i];
        if item.schema.title != "" {
          var sub := new Annotate.SchemaRef(item.schema);
          PurgeNode(sub);
          kept := kept + [item.(schema := sub.value)];
        }
      }
      ref.value := ref.value.(properties := if kept == [] then NoProps else Props(kept));
    } else if "array" in ref.value.types {
      for i := 0 to |ref.value.items|
        invariant ref.value == s.(items := ref.value.items)
        invariant |ref.value.items| == |s.items|
        invariant forall k | 0 <= k < |s.items| :: ref.value.items[k] == if k < i then Purged(s.items[k]) else s.items[k]
      {
        var sub := new Annotate.SchemaRef(ref.value.items[i]);
        PurgeNode(sub);
        ref.value := ref.value.(items := ref.value.items[i := sub.value]);
      }
      assert ref.value.items == Purged(s).items;
    }
  }
}
