/**
 * SplitSchemaI18n of schema/schema.go: the older way of pulling translations out of a schema.
 * A translation is a string stored in ExtraProps under `<key>.<language>`. The split deletes
 * every such entry from the tree it is given and returns one schema per language, built from
 * copies of the node with the translated texts set by the older SetSchemaProp. Languages found
 * below an item must already be languages of the node itself, otherwise the source dereferences
 * a nil pointer; the model returns None wherever the source panics.
 */
module LegacySplit {
  import opened Wrappers
  import opened Text
  import opened Values
  import opened Spec
  import Annotate
  import LegacyAnnotate

  /**
   * What the split relies on and the model cannot write down: the order in which a range
   * statement visits a map's keys (Go leaves it unspecified), which YAML scalars decode to a Go
   * string (the type assertion `v.(string)`), and the decoders SetSchemaProp calls.
   */
  datatype Host = Host(order: map<string, Value> -> seq<string>, yamlString: string -> Option<string>, env: Env)

  /**
   * `keys` lists every key of `m` once, as a range statement over `m` visits them: it holds
   * every key and is no longer than the map, so it holds nothing else and no key twice.
   */
  predicate Visits(keys: seq<string>, m: map<string, Value>)
  {
    (forall k | k in m :: k in keys) && |keys| == |m|
  }

  /** The order the host gives is a visit of every map's keys. */
  ghost predicate Enumerates(h: Host)
  {
    forall m :: Visits(h.order(m), m)
  }

  /** The string a stored value holds, if it holds one (`v.(string)`). */
  function AsString(v: Value, h: Host): Option<string>
  {
    match v
    case Str(t) => Some(t)
    case Yaml(src) => h.yamlString(src)
    case _ => None
  }

  /** An entry the split moves out of its node: a string under a key with a '.'. */
  predicate Moved(m: map<string, Value>, k: string, h: Host)
  {
    k in m && '.' in k && AsString(m[k], h).Some?
  }

  /** A dotted key cut at its first '.': the base key and the language. */
  function Cut(k: string): (r: (string, string))
    requires '.' in k
    ensures '.' !in r.0
  {
    var i := Index(k, '.');
    (k[..i], k[i + 1..])
  }

  /** The two halves of a cut key, joined by a '.', are the key. */
  lemma CutJoins(k: string)
    requires '.' in k
    ensures k == Cut(k).0 + "." + Cut(k).1
  {
    var i := Index(k, '.');
    assert k == k[..i] + [k[i]] + k[i + 1..];
  }

  /** removeDotKey: the map without its dotted keys. */
  function RemoveDotKey(m: map<string, Value>): (r: map<string, Value>)
    ensures forall k :: k in r <==> k in m && '.' !in k
    ensures forall k | k in r :: r[k] == m[k]
  {
    map k | k in m && '.' !in k :: m[k]
  }

  /** A map without the entries the split moves. */
  function Unmoved(m: map<string, Value>, h: Host): map<string, Value>
  {
    map k | k in m && !Moved(m, k, h) :: m[k]
  }

  /** Every node of `s` without the entries the split moves: what the split leaves of its input. */
  function Stripped(s: Schema, h: Host): (r: Schema)
    ensures r == s.(extraProps := r.extraProps, items := r.items, properties := r.properties)
    ensures r.extraProps.Keys <= s.extraProps.Keys && forall k | k in r.extraProps :: r.extraProps[k] == s.extraProps[k]
    ensures |r.items| == |s.items| && SameProps(r, s)
    decreases s
  {
    s.(extraProps := Unmoved(s.extraProps, h),
       items := seq(|s.items|, i requires 0 <= i < |s.items| => Stripped(s.items[i], h)),
       properties :=
         if s.properties.Props? then
           Props(seq(|s.properties.list|, k requires 0 <= k < |s.properties.list| =>
                       s.properties.list[k].(schema := Stripped(s.properties.list[k].schema, h))))
         else NoProps)
  }

  /** The copy a language of the node's own keys starts from: the node without its dotted keys. */
  function LocaleCopy(s: Schema): Schema
  {
    s.(extraProps := RemoveDotKey(s.extraProps))
  }

  /**
   * The first loop over the node's keys, in the order `keys`: a moved key deletes itself, makes
   * its language's copy the first time the language is seen, and sets the base key on that copy.
   */
  function OwnLocales(s: Schema, keys: seq<string>, h: Host): (r: map<string, Schema>)
    ensures forall l | l in r :: Fits(r[l], |PropList(s)|)
  {
    if keys == [] then map[]
    else
      var ret := OwnLocales(s, keys[..|keys| - 1], h);
      var k := keys[|keys| - 1];
      if !Moved(s.extraProps, k, h) then ret
      else
        var c := Cut(k);
        ret[c.1 := LegacyAnnotate.SetProp(if c.1 in ret then ret[c.1] else LocaleCopy(s), c.0,
                                          AsString(s.extraProps[k], h).value, h.env)]
  }

  /** A variant has `m` properties (and a property list at all when `m` is not 0). */
  predicate Fits(v: Schema, m: nat)
  {
    |PropList(v)| == m && (m > 0 ==> v.properties.Props?)
  }

  /** As many properties, and a property list exactly when the other has one. */
  predicate SameProps(a: Schema, b: Schema)
  {
    |PropList(a)| == |PropList(b)| && a.properties.Props? == b.properties.Props?
  }

  /** The languages of the node's own keys. */
  function Own(s: Schema, h: Host): map<string, Schema>
  {
    OwnLocales(s, h.order(s.extraProps), h)
  }

  /**
   * SplitSchemaI18n on a node: the languages it returns, or None where the source panics. A
   * panic in any recursive call is a panic of the whole call, whatever the order, so the
   * results of the recursive calls are taken first and the two loops run on them.
   */
  function SplitI18n(s: Schema, h: Host): (r: Option<map<string, Schema>>)
    ensures r.Some? ==> AllSplit(ItemSplits(s, h)) && AllSplit(PropSplits(s, h))
    ensures r.Some? ==> Own(s, h).Keys <= r.value.Keys
    decreases s, 1
  {
    var items := ItemSplits(s, h);
    var props := PropSplits(s, h);
    if !AllSplit(items) || !AllSplit(props) then None
    else
      match ItemsLoop(Own(s, h), Results(items))
      case None => None
      case Some(ret) => Some(PropsLoop(Stripped(s, h), PropList(s), Results(props), ret))
  }

  /** The recursive call on every item. */
  function ItemSplits(s: Schema, h: Host): (r: seq<Option<map<string, Schema>>>)
    ensures |r| == |s.items|
    decreases s, 0
  {
    seq(|s.items|, i requires 0 <= i < |s.items| => SplitI18n(s.items[i], h))
  }

  /** The recursive call on every property's schema. */
  function PropSplits(s: Schema, h: Host): (r: seq<Option<map<string, Schema>>>)
    ensures |r| == |PropList(s)|
    decreases s, 0
  {
    seq(|PropList(s)|, k requires 0 <= k < |PropList(s)| => SplitI18n(s.properties.list[k].schema, h))
  }

  /** Every recursive call returned. */
  predicate AllSplit(subs: seq<Option<map<string, Schema>>>)
  {
    forall i | 0 <= i < |subs| :: subs[i].Some?
  }

  /** What the recursive calls returned. */
  function Results(subs: seq<Option<map<string, Schema>>>): (r: seq<map<string, Schema>>)
    requires AllSplit(subs)
    ensures |r| == |subs| && forall i | 0 <= i < |subs| :: subs[i] == Some(r[i])
  {
    seq(|subs|, i requires 0 <= i < |subs| => subs[i].value)
  }

  /**
   * Item `i`'s languages all have a variant in `own` that has an item `i`: otherwise
   * `ret[lang].Items[i] = *langschema` dereferences nil or indexes out of range.
   */
  predicate Fitting(own: map<string, Schema>, subs: seq<map<string, Schema>>, i: nat)
    requires i < |subs|
  {
    forall l | l in subs[i] :: l in own && i < |own[l].items|
  }

  /** The items of a variant of `l` once every item result naming `l` is written at its index. */
  function WrittenItems(items: seq<Schema>, subs: seq<map<string, Schema>>, l: string): (r: seq<Schema>)
    ensures |r| == |items|
  {
    seq(|items|, j requires 0 <= j < |items| => if j < |subs| && l in subs[j] then subs[j][l] else items[j])
  }

  /**
   * The items loop, whose recursive calls returned `subs`, as what it leaves: None when some
   * item names a language that is not a variant yet or whose variant has too few items, else
   * every variant with the items written. Every index is written by its own item only, so the
   * order of the writes does not matter.
   */
  function ItemsLoop(own: map<string, Schema>, subs: seq<map<string, Schema>>): (r: Option<map<string, Schema>>)
    ensures r.Some? <==> forall i | 0 <= i < |subs| :: Fitting(own, subs, i)
    ensures r.Some? ==> r.value.Keys == own.Keys && forall l | l in own :: SameProps(r.value[l], own[l])
  {
    if forall i | 0 <= i < |subs| :: Fitting(own, subs, i) then
      Some(map l | l in own :: own[l].(items := WrittenItems(own[l].items, subs, l)))
    else None
  }

  /** The languages some result names. */
  function Named(subs: seq<map<string, Schema>>): (r: set<string>)
    ensures forall l :: l in r <==> exists j | 0 <= j < |subs| :: l in subs[j]
  {
    set j, l | 0 <= j < |subs| && l in subs[j] :: l
  }

  /** Some result before index `k` names `l`. */
  predicate SeenBefore(subs: seq<map<string, Schema>>, l: string, k: int)
  {
    exists j | 0 <= j < k && j < |subs| :: l in subs[j]
  }

  /**
   * The properties of a variant of `l` once every property result naming `l` is written at its
   * index, under the original name.
   */
  function WrittenProps(base: seq<Property>, orig: seq<Property>, subs: seq<map<string, Schema>>, l: string)
    : (r: seq<Property>)
    requires |base| == |orig| == |subs|
    ensures |r| == |orig|
  {
    seq(|orig|, k requires 0 <= k < |orig| => if l in subs[k] then orig[k].(schema := subs[k][l]) else base[k])
  }

  /**
   * The properties a language first met at a property starts from: `DeepCopySchema(schema)`
   * taken then, when the properties up to that one are stripped and those after it are not yet.
   */
  function FreshProps(stripped: seq<Property>, orig: seq<Property>, subs: seq<map<string, Schema>>, l: string)
    : (r: seq<Property>)
    requires |stripped| == |orig| == |subs|
    ensures |r| == |orig|
  {
    seq(|orig|, k requires 0 <= k < |orig| => if SeenBefore(subs, l, k) then orig[k] else stripped[k])
  }

  /**
   * The properties loop over the original properties `orig`, whose recursive calls returned
   * `subs`, as what it leaves: `t` is the node as the split leaves it, `ret0` the variants after
   * the items loop. A variant there gets the written properties; a language met only below a
   * property gets a copy of the node taken when it is first met.
   */
  function PropsLoop(t: Schema, orig: seq<Property>, subs: seq<map<string, Schema>>, ret0: map<string, Schema>)
    : (r: map<string, Schema>)
    requires |subs| == |orig| && Fits(t, |orig|)
    requires forall l | l in ret0 :: Fits(ret0[l], |orig|)
    ensures r.Keys == ret0.Keys + Named(subs)
    ensures forall l | l in r :: Fits(r[l], |orig|)
  {
    if orig == [] then ret0
    else
      map l | l in ret0.Keys + Named(subs) ::
        if l in ret0 then
          assert Fits(ret0[l], |orig|);
          ret0[l].(properties := Props(WrittenProps(PropList(ret0[l]), orig, subs, l)))
        else t.(properties := Props(WrittenProps(FreshProps(PropList(t), orig, subs, l), orig, subs, l)))
  }

  // ---------------------------------------------------------------------------------------
  // The languages of the split

  /**
   * The split returns exactly when no recursive call panics and every item's languages have a
   * variant among the node's own that has that item; it returns the node's own languages and
   * those of its properties' results.
   */
  lemma SplitDefined(s: Schema, h: Host)
    ensures var items := ItemSplits(s, h);
            var props := PropSplits(s, h);
            && (SplitI18n(s, h).Some? <==>
                  && AllSplit(items) && AllSplit(props)
                  && forall i | 0 <= i < |s.items| :: Fitting(Own(s, h), Results(items), i))
            && (SplitI18n(s, h).Some? ==>
                  SplitI18n(s, h).value.Keys == Own(s, h).Keys + Named(Results(props)))
  {
  }

  /** A node with no items and no properties splits into its own variants. */
  lemma LeafSplit(s: Schema, h: Host)
    requires s.items == [] && PropList(s) == []
    ensures SplitI18n(s, h) == Some(Own(s, h))
  {
    var own := Own(s, h);
    assert ItemSplits(s, h) == [] && PropSplits(s, h) == [];
    var written := ItemsLoop(own, []).value;
    forall l | l in own ensures written[l] == own[l] {
      assert WrittenItems(own[l].items, [], l) == own[l].items;
    }
    assert written == own;
  }

  /** What the split returns: the properties loop run on what the items loop leaves. */
  lemma SplitValue(s: Schema, h: Host)
    requires SplitI18n(s, h).Some?
    ensures AllSplit(ItemSplits(s, h)) && AllSplit(PropSplits(s, h))
    ensures ItemsLoop(Own(s, h), Results(ItemSplits(s, h))).Some?
    ensures SplitI18n(s, h).value
            == PropsLoop(Stripped(s, h), PropList(s), Results(PropSplits(s, h)),
                         ItemsLoop(Own(s, h), Results(ItemSplits(s, h))).value)
  {
  }

  /** The languages of the node's own moved keys. */
  function OwnLanguages(s: Schema, h: Host): set<string>
  {
    set k | k in s.extraProps && Moved(s.extraProps, k, h) :: Cut(k).1
  }

  /** The languages of moved keys on the node and, through properties, below it. */
  function Languages(s: Schema, h: Host): set<string>
    decreases s, 1
  {
    OwnLanguages(s, h) + Below(s, h)
  }

  /** The languages met below the node's properties. */
  function Below(s: Schema, h: Host): set<string>
    decreases s, 0
  {
    set k, l | 0 <= k < |PropList(s)| && l in Languages(s.properties.list[k].schema, h) :: l
  }

  /** The first loop makes a variant for exactly the languages of the moved keys it visits. */
  lemma {:induction false} OwnLocalesKeys(s: Schema, keys: seq<string>, h: Host, l: string)
    ensures l in OwnLocales(s, keys, h)
            <==> exists i | 0 <= i < |keys| :: Moved(s.extraProps, keys[i], h) && Cut(keys[i]).1 == l
  {
    if keys != [] {
      var init := keys[..|keys| - 1];
      var k := keys[|keys| - 1];
      OwnLocalesKeys(s, init, h, l);
      OwnLocalesStep(s, keys, h);
      if exists i | 0 <= i < |keys| :: Moved(s.extraProps, keys[i], h) && Cut(keys[i]).1 == l {
        var i :| 0 <= i < |keys| && Moved(s.extraProps, keys[i], h) && Cut(keys[i]).1 == l;
        if i < |init| {
          assert init[i] == keys[i];
        }
      }
    }
  }

  /** One more key adds its language when it is moved, and nothing otherwise. */
  lemma OwnLocalesStep(s: Schema, keys: seq<string>, h: Host)
    requires keys != []
    ensures var k := keys[|keys| - 1];
            OwnLocales(s, keys, h).Keys
              == OwnLocales(s, keys[..|keys| - 1], h).Keys + (if Moved(s.extraProps, k, h) then {Cut(k).1} else {})
  {
  }

  /** The node's own variants are those of the languages of its moved keys. */
  lemma OwnKeys(s: Schema, h: Host)
    requires Enumerates(h)
    ensures Own(s, h).Keys == OwnLanguages(s, h)
  {
    var keys := h.order(s.extraProps);
    assert Visits(keys, s.extraProps);
    forall l ensures l in Own(s, h) <==> l in OwnLanguages(s, h) {
      OwnLocalesKeys(s, keys, h, l);
      if l in OwnLanguages(s, h) {
        OwnLanguageKey(s, keys, h, l);
      }
    }
  }

  /** A language of a moved key is the language of a key the range statement visits. */
  lemma OwnLanguageKey(s: Schema, keys: seq<string>, h: Host, l: string)
    requires Visits(keys, s.extraProps) && l in OwnLanguages(s, h)
    ensures exists i | 0 <= i < |keys| :: Moved(s.extraProps, keys[i], h) && Cut(keys[i]).1 == l
  {
    var k :| k in s.extraProps && Moved(s.extraProps, k, h) && Cut(k).1 == l;
    var i :| 0 <= i < |keys| && keys[i] == k;
  }

  /** No variant of the node's own languages keeps a dotted key among its extra properties. */
  lemma {:induction false} OwnLocalesUndotted(s: Schema, keys: seq<string>, h: Host)
    ensures forall l, k | l in OwnLocales(s, keys, h) && k in OwnLocales(s, keys, h)[l].extraProps :: '.' !in k
  {
    if keys != [] {
      OwnLocalesUndotted(s, keys[..|keys| - 1], h);
    }
  }

  /**
   * The languages the split returns are those of the moved keys of the node and of the nodes
   * below its properties.
   */
  lemma {:induction false} SplitLanguages(s: Schema, h: Host)
    requires Enumerates(h) && SplitI18n(s, h).Some?
    ensures SplitI18n(s, h).value.Keys == Languages(s, h)
    decreases s
  {
    var props := PropSplits(s, h);
    var subs := Results(props);
    SplitDefined(s, h);
    OwnKeys(s, h);
    forall k | 0 <= k < |subs| ensures subs[k].Keys == Languages(s.properties.list[k].schema, h) {
      assert props[k] == SplitI18n(s.properties.list[k].schema, h);
      SplitLanguages(s.properties.list[k].schema, h);
    }
    NamedBelow(s, h, subs);
  }

  /** Results holding the languages of each property's schema name the languages below the node. */
  lemma NamedBelow(s: Schema, h: Host, subs: seq<map<string, Schema>>)
    requires |subs| == |PropList(s)|
    requires forall k | 0 <= k < |subs| :: subs[k].Keys == Languages(s.properties.list[k].schema, h)
    ensures Named(subs) == Below(s, h)
  {
    forall l ensures l in Named(subs) <==> l in Below(s, h) {
      if l in Below(s, h) {
        var k :| 0 <= k < |PropList(s)| && l in Languages(s.properties.list[k].schema, h);
        assert l in subs[k];
      }
    }
  }

  /** What the split leaves of every node: no entry it moves. */
  predicate Clean(s: Schema, h: Host)
    decreases s
  {
    && (forall k | k in s.extraProps :: !Moved(s.extraProps, k, h))
    && (forall i | 0 <= i < |s.items| :: Clean(s.items[i], h))
    && (forall k | 0 <= k < |PropList(s)| :: Clean(s.properties.list[k].schema, h))
  }

  /** The split leaves no translation behind in the tree it is given. */
  lemma {:induction false} StrippedClean(s: Schema, h: Host)
    ensures Clean(Stripped(s, h), h)
    decreases s
  {
    var t := Stripped(s, h);
    forall i | 0 <= i < |s.items| ensures Clean(t.items[i], h) {
      StrippedClean(s.items[i], h);
    }
    forall k | 0 <= k < |PropList(s)| ensures Clean(t.properties.list[k].schema, h) {
      StrippedClean(s.properties.list[k].schema, h);
    }
  }

  // ---------------------------------------------------------------------------------------
  // The variants

  /** The node's own variants keep its properties. */
  lemma {:induction false} OwnLocalesProperties(s: Schema, keys: seq<string>, h: Host)
    ensures forall l | l in OwnLocales(s, keys, h) :: OwnLocales(s, keys, h)[l].properties == s.properties
  {
    if keys != [] {
      OwnLocalesProperties(s, keys[..|keys| - 1], h);
    }
  }

  /**
   * Property `k` of the variant of `l`: the result of property `k`'s split for `l` under the
   * original name when there is one; otherwise the original property, untouched by the split,
   * when `l` is a language of the node itself or was first met at an earlier property (either
   * copy was taken before the split reached property `k`), and the property as the split leaves
   * it when `l` is first met at a later one.
   */
  lemma SplitProperty(s: Schema, h: Host, l: string, k: nat)
    requires SplitI18n(s, h).Some? && l in SplitI18n(s, h).value && k < |PropList(s)|
    ensures var v := SplitI18n(s, h).value[l];
            var subs := Results(PropSplits(s, h));
            && |PropList(v)| == |PropList(s)|
            && PropList(v)[k] ==
                 if l in subs[k] then PropList(s)[k].(schema := subs[k][l])
                 else if l !in Own(s, h) && !SeenBefore(subs, l, k) then PropList(Stripped(s, h))[k]
                 else PropList(s)[k]
  {
    var own := Own(s, h);
    var subs := Results(PropSplits(s, h));
    var ret0 := ItemsLoop(own, Results(ItemSplits(s, h))).value;
    var t := Stripped(s, h);
    SplitValue(s, h);
    OwnLocalesProperties(s, h.order(s.extraProps), h);
    if l in own {
      assert ret0[l].properties == s.properties;
    }
  }

  /** The variant of a language of the node after both loops, from the variant after the first. */
  lemma SplitOwnEntry(s: Schema, h: Host, l: string)
    requires SplitI18n(s, h).Some? && l in Own(s, h)
    ensures var own := Own(s, h);
            var subs := Results(ItemSplits(s, h));
            var v := SplitI18n(s, h).value[l];
            v == own[l].(items := WrittenItems(own[l].items, subs, l), properties := v.properties)
  {
    var own := Own(s, h);
    var ret0 := ItemsLoop(own, Results(ItemSplits(s, h))).value;
    SplitValue(s, h);
    var r := PropsLoop(Stripped(s, h), PropList(s), Results(PropSplits(s, h)), ret0);
    assert r[l] == ret0[l].(properties := r[l].properties);
  }

  /**
   * The variant of a language of the node itself apart from its properties: that language's copy
   * with the item results for `l` written at their indices.
   */
  lemma SplitOwnVariant(s: Schema, h: Host, l: string)
    requires SplitI18n(s, h).Some? && l in Own(s, h)
    ensures var v := SplitI18n(s, h).value[l];
            var subs := Results(ItemSplits(s, h));
            && v == Own(s, h)[l].(items := v.items, properties := v.properties)
            && |v.items| == |Own(s, h)[l].items|
            && forall i | 0 <= i < |v.items| ::
                 v.items[i] == if i < |subs| && l in subs[i] then subs[i][l] else Own(s, h)[l].items[i]
  {
    SplitOwnEntry(s, h, l);
  }

  /**
   * The variant of a language first met below a property, apart from its properties: the node as
   * the split leaves it, items included.
   */
  lemma SplitNewVariant(s: Schema, h: Host, l: string)
    requires SplitI18n(s, h).Some? && l in SplitI18n(s, h).value && l !in Own(s, h)
    ensures SplitI18n(s, h).value[l] == Stripped(s, h).(properties := SplitI18n(s, h).value[l].properties)
  {
    var own := Own(s, h);
    var ret0 := ItemsLoop(own, Results(ItemSplits(s, h))).value;
    SplitDefined(s, h);
    SplitValue(s, h);
    PropsLoopNew(Stripped(s, h), PropList(s), Results(PropSplits(s, h)), ret0, l);
  }

  /** A language the properties loop adds is a copy of `t` with other properties. */
  lemma PropsLoopNew(t: Schema, orig: seq<Property>, subs: seq<map<string, Schema>>, ret0: map<string, Schema>, l: string)
    requires |subs| == |orig| && Fits(t, |orig|)
    requires forall l | l in ret0 :: Fits(ret0[l], |orig|)
    requires l in PropsLoop(t, orig, subs, ret0) && l !in ret0
    ensures PropsLoop(t, orig, subs, ret0)[l] == t.(properties := PropsLoop(t, orig, subs, ret0)[l].properties)
  {
    assert orig != [];
  }
}
