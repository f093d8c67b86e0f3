/**
 * The i18n engine of schema/i18n.go: the sections of a comment are split by the locale suffix
 * of their name (`@title.zh`), the sections without a locale are applied to a copy of the
 * schema, and each locale gets a copy of that result with its own sections applied. Over a
 * whole tree, every child is resolved first, its original written back into the parent, and the
 * parent gets a variant for every locale found below it. PurgeSchema drops untitled properties.
 *
 * DeepCopySchema is the identity here: a Schema is a value.
 */
module I18n {
  import opened Wrappers
  import opened Text
  import opened Scanner
  import opened Spec
  import opened Annotate
  import opened Seqs

  /** An I18nSchema: the schema without locale (`Orignal`) and one variant per locale. */
  datatype I18nSchema = I18nSchema(original: Schema, locales: map<string, Schema>)

  /** The sections of a comment split by locale: those without one, and those of each locale. */
  datatype Partition = Partition(nolocale: seq<Section>, bylocale: map<string, seq<Section>>)

  /** A missing key of a Go map reads as the nil slice. */
  function Lookup(m: map<string, seq<Section>>, k: string): seq<Section>
  {
    if k in m then m[k] else []
  }

  /** The locale suffix of a section's name, "" when it has none. */
  function LocaleOf(sec: Section): string
  {
    SplitKeyLocale(sec.name).1
  }

  /** A localised section under its name without the locale suffix. */
  function BaseSection(sec: Section): Section
  {
    sec.(name := SplitKeyLocale(sec.name).0)
  }

  // ----- the partition of CompleteI18nFromComment -----

  /**
   * The partition loop with each section appended to the list of its own locale
   * (see README, Findings: the source appends to the list found under the base name).
   */
  function PartitionSections(secs: seq<Section>): (p: Partition)
    ensures |p.nolocale| <= |secs| && "" !in p.bylocale
    ensures forall l | l in p.bylocale :: p.bylocale[l] != []
  {
    if secs == [] then Partition([], map[])
    else
      var p := PartitionSections(secs[..|secs| - 1]);
      var sec := secs[|secs| - 1];
      var locale := LocaleOf(sec);
      if locale != "" then p.(bylocale := p.bylocale[locale := Lookup(p.bylocale, locale) + [BaseSection(sec)]])
      else p.(nolocale := p.nolocale + [sec])
  }

  /** The partition loop as written: a localised section extends the list under its base name. */
  function PartitionAsWritten(secs: seq<Section>): (p: Partition)
    ensures |p.nolocale| <= |secs| && "" !in p.bylocale
    ensures forall l | l in p.bylocale :: p.bylocale[l] != []
  {
    if secs == [] then Partition([], map[])
    else
      var p := PartitionAsWritten(secs[..|secs| - 1]);
      var sec := secs[|secs| - 1];
      var locale := LocaleOf(sec);
      if locale != "" then
        p.(bylocale := p.bylocale[locale := Lookup(p.bylocale, SplitKeyLocale(sec.name).0) + [BaseSection(sec)]])
      else p.(nolocale := p.nolocale + [sec])
  }

  /** The sections without a locale, in order. */
  function WithoutLocale(secs: seq<Section>): (r: seq<Section>)
    ensures forall k | 0 <= k < |r| :: LocaleOf(r[k]) == ""
  {
    if secs == [] then []
    else WithoutLocale(secs[..|secs| - 1]) + (if LocaleOf(secs[|secs| - 1]) == "" then [secs[|secs| - 1]] else [])
  }

  /** The sections of locale `l`, in order, each under its base name. */
  function OfLocale(secs: seq<Section>, l: string): (r: seq<Section>)
    ensures |r| <= |secs|
    ensures l != "" ==> (r == [] <==> l !in Locales(secs))
  {
    if secs == [] then []
    else OfLocale(secs[..|secs| - 1], l) + (if LocaleOf(secs[|secs| - 1]) == l then [BaseSection(secs[|secs| - 1])] else [])
  }

  /** The locales named by some section. */
  function Locales(secs: seq<Section>): (r: set<string>)
    ensures "" !in r
  {
    if secs == [] then {}
    else Locales(secs[..|secs| - 1]) + (if LocaleOf(secs[|secs| - 1]) != "" then {LocaleOf(secs[|secs| - 1])} else {})
  }

  /** The partition of the source (`asWritten`) or the corrected one. */
  function Partitioned(secs: seq<Section>, asWritten: bool): Partition
  {
    if asWritten then PartitionAsWritten(secs) else PartitionSections(secs)
  }

  /**
   * As written, the sections without a locale are still the filter, in order, and there is
   * still one list for each locale some section names.
   */
  lemma {:induction false} PartitionAsWrittenShape(secs: seq<Section>)
    ensures PartitionAsWritten(secs).nolocale == WithoutLocale(secs)
    ensures PartitionAsWritten(secs).bylocale.Keys == Locales(secs)
  {
    if secs != [] {
      PartitionAsWrittenShape(secs[..|secs| - 1]);
    }
  }

  /** Both partitions agree on the sections without a locale and on the locales. */
  lemma PartitionedShape(secs: seq<Section>, asWritten: bool)
    ensures Partitioned(secs, asWritten).nolocale == WithoutLocale(secs)
    ensures Partitioned(secs, asWritten).bylocale.Keys == Locales(secs)
  {
    PartitionAsWrittenShape(secs);
    PartitionNoLocale(secs);
    PartitionIsFilter(secs);
  }

  /** The sections without a locale are the filter, in order. */
  lemma {:induction false} PartitionNoLocale(secs: seq<Section>)
    ensures PartitionSections(secs).nolocale == WithoutLocale(secs)
  {
    if secs != [] {
      PartitionNoLocale(secs[..|secs| - 1]);
    }
  }

  /**
   * The partition is the filter by locale: a list for each locale some section names, holding
   * exactly that locale's sections in order.
   */
  lemma {:induction false} PartitionIsFilter(secs: seq<Section>)
    ensures PartitionSections(secs).bylocale.Keys == Locales(secs)
    ensures forall l | l in PartitionSections(secs).bylocale :: PartitionSections(secs).bylocale[l] == OfLocale(secs, l)
  {
    if secs != [] {
      var init := secs[..|secs| - 1];
      var sec := secs[|secs| - 1];
      PartitionIsFilter(init);
      var p := PartitionSections(init);
      var q := PartitionSections(secs);
      forall l | l in q.bylocale
        ensures q.bylocale[l] == OfLocale(secs, l)
      {
        if l !in p.bylocale {
          assert l == LocaleOf(sec) && l != "";
          OfLocaleAbsent(init, l);
        }
      }
    }
  }

  /** A locale no section names has no sections. */
  lemma {:induction false} OfLocaleAbsent(secs: seq<Section>, l: string)
    requires l !in Locales(secs) && l != ""
    ensures OfLocale(secs, l) == []
  {
    if secs != [] {
      OfLocaleAbsent(secs[..|secs| - 1], l);
      assert LocaleOf(secs[|secs| - 1]) != l;
    }
  }

  /**
   * Two sections of one locale: the source keeps only the last one, because the first is
   * appended to the list found under the second one's base name; the corrected partition keeps
   * both.
   */
  lemma PartitionTwoOfOneLocale(a: Section, b: Section)
    requires LocaleOf(a) != "" && LocaleOf(b) == LocaleOf(a) && BaseSection(b).name != LocaleOf(a)
    ensures PartitionAsWritten([a, b]).bylocale[LocaleOf(a)] == [BaseSection(b)]
    ensures PartitionSections([a, b]).bylocale[LocaleOf(a)] == [BaseSection(a), BaseSection(b)]
  {
    var ab := [a, b];
    assert ab[..1] == [a] && ab[1] == b;
    assert [a][..0] == [];
    assert PartitionSections([]) == Partition([], map[]);
    assert [] + [BaseSection(a)] == [BaseSection(a)];
    var p1 := Partition([], map[LocaleOf(a) := [BaseSection(a)]]);
    assert PartitionSections([a]) == p1;
    assert PartitionAsWritten([a]) == p1;
  }

  /**
   * `@title.zh A` then `@description.zh B` (TitleZh and DescriptionZh show that the sections
   * of those names meet the requirements): the source keeps only the description for "zh".
   */
  lemma PartitionKeepsOnlyLast(a: Section, b: Section)
    requires LocaleOf(a) == "zh" && BaseSection(a) == Section("A", "@title", "A", [])
    requires LocaleOf(b) == "zh" && BaseSection(b) == Section("B", "@description", "B", [])
    ensures PartitionAsWritten([a, b]).bylocale["zh"] == [Section("B", "@description", "B", [])]
    ensures PartitionSections([a, b]).bylocale["zh"] == [Section("A", "@title", "A", []), Section("B", "@description", "B", [])]
  {
    PartitionTwoOfOneLocale(a, b);
  }

  lemma TitleZh(a: Section)
    requires a == Section("A", "@title.zh", "A", [])
    ensures LocaleOf(a) == "zh" && BaseSection(a) == Section("A", "@title", "A", [])
  {
    LocalisedName(a, "@title", "zh");
  }

  lemma DescriptionZh(b: Section)
    requires b == Section("B", "@description.zh", "B", [])
    ensures LocaleOf(b) == "zh" && BaseSection(b) == Section("B", "@description", "B", [])
  {
    LocalisedName(b, "@description", "zh");
  }

  /** A section named `base.locale` has that locale and, under its base name, is named `base`. */
  lemma LocalisedName(sec: Section, base: string, locale: string)
    requires base != [] && '.' !in base && sec.name == base + "." + locale
    ensures LocaleOf(sec) == locale && BaseSection(sec) == sec.(name := base)
  {
    SplitJoinLocale(base, locale);
  }

  // ----- CompleteI18nFromComment -----

  /**
   * The application of a list of sections to a schema, in order. The tree resolution below is
   * stated for any applier that behaves as ApplyAll does under a sound environment (Lawful);
   * Applying(env) is that applier.
   */
  type Applier = (Schema, seq<Section>) -> Schema

  /** What applying sections keeps: the properties and the comment, and the items or their freedom from comments. */
  ghost predicate Keeps(s: Schema, r: Schema)
  {
    && r.properties == s.properties && r.comment == s.comment
    && (r.items == s.items || forall k | 0 <= k < |r.items| :: CommentFree(r.items[k]))
  }

  /** An applier that keeps the shape of every schema and applies nothing for no section. */
  ghost predicate Lawful(ap: Applier)
  {
    forall x, secs :: Keeps(x, ap(x, secs)) && (secs == [] ==> ap(x, secs) == x)
  }

  function Applying(env: Env): Applier
  {
    (x, secs) => ApplyAll(x, secs, env)
  }

  /** ApplyAll under a sound environment is lawful. */
  lemma ApplyingLawful(env: Env)
    requires Sound(env)
    ensures Lawful(Applying(env))
  {
    forall x, secs ensures Keeps(x, Applying(env)(x, secs)) {
      assert SameShape(x, ApplyAll(x, secs, env), env);
    }
  }

  /** Each locale's schema: the given schema with that locale's sections applied in order. */
  function LocaleVariants(o: Schema, bylocale: map<string, seq<Section>>, ap: Applier): (r: map<string, Schema>)
    ensures r.Keys == bylocale.Keys
    ensures Lawful(ap) ==> forall l | l in r :: Keeps(o, r[l])
  {
    map l | l in bylocale :: ap(o, bylocale[l])
  }

  /**
   * CompleteI18nFromComment: the original is the schema with the sections without locale
   * applied in order; there is one variant per locale a section names, which is the original
   * with that locale's sections applied in order under their base names.
   */
  function FromComment(s: Schema, comment: string, env: Env): (r: I18nSchema)
    ensures var secs := CommentSections(comment);
            && r.original == ApplyAll(s, WithoutLocale(secs), env)
            && r.locales.Keys == Locales(secs)
            && forall l | l in r.locales :: r.locales[l] == ApplyAll(r.original, OfLocale(secs, l), env)
  {
    var secs := CommentSections(comment);
    var p := PartitionSections(secs);
    PartitionIsFilter(secs);
    PartitionNoLocale(secs);
    var o := ApplyAll(s, p.nolocale, env);
    I18nSchema(o, LocaleVariants(o, p.bylocale, Applying(env)))
  }

  /**
   * CompleteI18nFromComment as written: the original and the locales are those of FromComment,
   * but each locale's variant is the original with the list of the source's partition applied,
   * which holds only the last section of that locale when its base name is not a locale too.
   */
  function FromCommentAsWritten(s: Schema, comment: string, env: Env): (r: I18nSchema)
    ensures var secs := CommentSections(comment);
            var p := PartitionAsWritten(secs);
            && r.original == ApplyAll(s, WithoutLocale(secs), env)
            && r.locales.Keys == Locales(secs) == p.bylocale.Keys
            && forall l | l in r.locales :: r.locales[l] == ApplyAll(r.original, p.bylocale[l], env)
  {
    var p := PartitionAsWritten(CommentSections(comment));
    PartitionAsWrittenShape(CommentSections(comment));
    var o := ApplyAll(s, p.nolocale, env);
    I18nSchema(o, LocaleVariants(o, p.bylocale, Applying(env)))
  }

  /** The source and the corrected partition build the same original, for the same locales. */
  lemma FromCommentAsWrittenAgrees(s: Schema, comment: string, env: Env)
    ensures FromCommentAsWritten(s, comment, env).original == FromComment(s, comment, env).original
    ensures FromCommentAsWritten(s, comment, env).locales.Keys == FromComment(s, comment, env).locales.Keys
  {
  }

  /** CombineErrors: nil for no error, else one error listing them all. */
  function CombineErrors(errs: seq<string>): (r: Option<string>)
    ensures r.None? <==> errs == []
  {
    if |errs| == 0 then None else Some("[" + Join(errs, ' ') + "]")
  }

  /** The error a call returned, if any, as a list to append. */
  function Errors(err: Option<string>): (r: seq<string>)
    ensures r == [] <==> err.None?
  {
    match err
    case None => []
    case Some(m) => [m]
  }

  /** The partition loop of CompleteI18nFromComment. */
  method SplitByLocale(secs: seq<Section>) returns (p: Partition)
    ensures p == PartitionSections(secs)
  {
    var nolocale: seq<Section> := [];
    var bylocale: map<string, seq<Section>> := map[];
    for i := 0 to |secs|
      invariant Partition(nolocale, bylocale) == PartitionSections(secs[..i])
    {
      assert secs[..i + 1][..i] == secs[..i];
      var sec := secs[i];
      var (key, locale) := SplitKeyLocale(sec.name);
      if locale != "" {
        sec := sec.(name := key);
        var prior := if locale in bylocale then bylocale[locale] else [];
        bylocale := bylocale[locale := prior + [sec]];
      } else {
        nolocale := nolocale + [sec];
      }
    }
    assert secs[..|secs|] == secs;
    p := Partition(nolocale, bylocale);
  }

  /** The sections applied one after the other; the errors of those that failed, of which there are none. */
  method ApplySections(ref: SchemaRef, secs: seq<Section>, env: Env) returns (errs: seq<string>)
    modifies ref
    ensures ref.value == ApplyAll(old(ref.value), secs, env) && errs == []
  {
    errs := [];
    for i := 0 to |secs|
      invariant ref.value == ApplyAll(old(ref.value), secs[..i], env) && errs == []
    {
      assert secs[..i + 1][..i] == secs[..i];
      var err := CompleteFromCommentSection(ref, secs[i], env);
      errs := errs + Errors(err);
    }
    assert secs[..|secs|] == secs;
  }

  /** The loop over the locales: a copy of `o` per locale, with that locale's sections applied. */
  method ApplyLocales(o: Schema, bylocale: map<string, seq<Section>>, env: Env)
    returns (locales: map<string, Schema>, errs: seq<string>)
    ensures locales == LocaleVariants(o, bylocale, Applying(env)) && errs == []
  {
    locales := map[];
    errs := [];
    var todo := bylocale.Keys;
    while todo != {}
      invariant todo <= bylocale.Keys && errs == []
      invariant locales.Keys == bylocale.Keys - todo
      invariant forall l | l in locales :: locales[l] == ApplyAll(o, bylocale[l], env)
      decreases todo
    {
      var l :| l in todo;
      var ref := new SchemaRef(o);
      var e := ApplySections(ref, bylocale[l], env);
      errs := errs + e;
      locales := locales[l := ref.value];
      todo := todo - {l};
    }
  }

  /** CompleteI18nFromComment; the schema passed in is a value and is left as it was. */
  method CompleteI18nFromComment(s: Schema, comment: string, env: Env) returns (r: I18nSchema, err: Option<string>)
    ensures r == FromComment(s, comment, env) && err == None
  {
    var secs := ParseComment(comment);
    var p := SplitByLocale(secs);
    var ref := new SchemaRef(s);
    var errs := ApplySections(ref, p.nolocale, env);
    var locales, more := ApplyLocales(ref.value, p.bylocale, env);
    r := I18nSchema(ref.value, locales);
    err := CombineErrors(errs + more);
  }

  // ----- CompleteI18n -----

  /** The locales some child has a variant for. */
  function ChildLocales(subs: seq<I18nSchema>): set<string>
  {
    if subs == [] then {} else ChildLocales(subs[..|subs| - 1]) + subs[|subs| - 1].locales.Keys
  }

  /** A locale is a child locale exactly when some child has a variant for it. */
  lemma {:induction false} ChildLocalesMembers(subs: seq<I18nSchema>, l: string)
    ensures l in ChildLocales(subs) <==> exists i | 0 <= i < |subs| :: l in subs[i].locales
  {
    if subs != [] {
      var init := subs[..|subs| - 1];
      ChildLocalesMembers(init, l);
      assert forall i | 0 <= i < |init| :: init[i] == subs[i];
    }
  }

  /** The keys after a step: the keys before it and the child's locales. */
  lemma KeysGrow(after: set<string>, before: set<string>, own: set<string>, subs: set<string>,
                 other: set<string>, more: set<string>)
    requires before == own + subs + other && after == before + more
    ensures after == own + (subs + more) + other
  {
  }

  /** One more child adds its locales. */
  lemma ChildLocalesSnoc(subs: seq<I18nSchema>, x: I18nSchema)
    ensures ChildLocales(subs + [x]) == ChildLocales(subs) + x.locales.Keys
  {
    assert (subs + [x])[..|subs|] == subs;
  }

  /** `Items[i] = v`; a position past the end is left alone (the source would panic there). */
  function PutItem(s: Schema, i: nat, v: Schema): (r: Schema)
    ensures i < |s.items| ==> r == s.(items := s.items[i := v])
    ensures i >= |s.items| ==> r == s
  {
    if i < |s.items| then s.(items := s.items[i := v]) else s
  }

  /** `Properties[i].Schema = v`, the name kept; a position past the end is left alone. */
  function PutProperty(s: Schema, i: nat, v: Schema): (r: Schema)
    ensures r == s.(properties := r.properties) && r.properties.Props? == s.properties.Props?
    ensures i < |PropList(s)| ==> PropList(r) == PropList(s)[i := PropList(s)[i].(schema := v)]
    ensures i >= |PropList(s)| ==> r == s
  {
    match s.properties
    case NoProps => s
    case Props(list) => if i < |list| then s.(properties := Props(list[i := list[i].(schema := v)])) else s
  }

  /** The children's originals written back into `o` at their positions. */
  function WrittenBack(o: Schema, items: seq<I18nSchema>, props: seq<I18nSchema>): (r: Schema)
    requires |items| == |o.items| && |props| == |PropList(o)|
    ensures r == o.(items := r.items, properties := r.properties) && r.properties.Props? == o.properties.Props?
    ensures |r.items| == |items| && forall i | 0 <= i < |items| :: r.items[i] == items[i].original
    ensures |PropList(r)| == |props|
    ensures forall i | 0 <= i < |props| :: PropList(r)[i] == PropList(o)[i].(schema := props[i].original)
  {
    var list := PropList(o);
    o.(items := seq(|items|, i requires 0 <= i < |items| => items[i].original),
       properties := if o.properties.NoProps? then NoProps
                     else Props(seq(|list|, i requires 0 <= i < |list| => list[i].(schema := props[i].original))))
  }

  /**
   * The variant `base` of locale `l` after the merge loops: each child with a variant for `l`
   * has put it at its own position.
   */
  function Merged(base: Schema, l: string, items: seq<I18nSchema>, props: seq<I18nSchema>): (r: Schema)
    ensures r == base.(items := r.items, properties := r.properties) && r.properties.Props? == base.properties.Props?
    ensures |r.items| == |base.items| && |PropList(r)| == |PropList(base)|
    ensures forall i | 0 <= i < |base.items| ::
              r.items[i] == if i < |items| && l in items[i].locales then items[i].locales[l] else base.items[i]
    ensures forall i | 0 <= i < |PropList(base)| ::
              PropList(r)[i] == if i < |props| && l in props[i].locales
                                then PropList(base)[i].(schema := props[i].locales[l]) else PropList(base)[i]
  {
    var list := PropList(base);
    base.(items := seq(|base.items|, i requires 0 <= i < |base.items| =>
                     if i < |items| && l in items[i].locales then items[i].locales[l] else base.items[i]),
          properties := if base.properties.NoProps? then NoProps
                        else Props(seq(|list|, i requires 0 <= i < |list| =>
                               if i < |props| && l in props[i].locales then list[i].(schema := props[i].locales[l]) else list[i])))
  }

  /** A schema without any comment has no section without a locale. */
  lemma CommentFreeNoSections(s: Schema)
    ensures CommentFree(s) ==> PartitionSections(CommentSections(s.comment)).nolocale == []
  {
  }

  /**
   * CompleteI18n over the tree below `s`. The computation at the node is ResolveNode; keeping it
   * one call away keeps its definition out of the proofs that only pass resolved children around.
   */
  function Resolve(s: Schema, ap: Applier, asWritten: bool): (r: I18nSchema)
    requires Lawful(ap)
    ensures Locales(CommentSections(s.comment)) <= r.locales.Keys
    decreases if CommentFree(s) then 0 else 1, s, 2
  {
    ResolveNode(s, ap, asWritten)
  }

  /**
   * CompleteI18n at the node `s`: each child of the updated original is resolved, its original
   * written back, and the node's variants are its own locales and every locale of a child, each
   * with the children's variants at their positions. A locale of the node's own comment starts
   * from the original with the children written back, or, as written (`asWritten`), from the
   * original before that (see README, Findings).
   */
  function ResolveNode(s: Schema, ap: Applier, asWritten: bool): (r: I18nSchema)
    requires Lawful(ap)
    ensures Locales(CommentSections(s.comment)) <= r.locales.Keys
    decreases if CommentFree(s) then 0 else 1, s, 1
  {
    PartitionedShape(CommentSections(s.comment), asWritten);
    var p := Partitioned(CommentSections(s.comment), asWritten);
    var o := Updated(s, ap);
    var items := ResolveItems(s, o, ap, asWritten);
    var props := ResolveProps(s, o, ap, asWritten);
    var o2 := WrittenBack(o, items, props);
    Assemble(o2, LocaleVariants(if asWritten then o else o2, p.bylocale, ap), items, props)
  }

  /**
   * A resolved node from its original `o2`, its own variants and its resolved children: one
   * variant per locale of the node or of a child, each with the children's variants merged in.
   */
  function Assemble(o2: Schema, own: map<string, Schema>, items: seq<I18nSchema>, props: seq<I18nSchema>): (r: I18nSchema)
    ensures r.original == o2
    ensures r.locales.Keys == own.Keys + ChildLocales(items) + ChildLocales(props)
  {
    var keys := own.Keys + ChildLocales(items) + ChildLocales(props);
    I18nSchema(o2, map l | l in keys :: Merged(Base(own, o2, l), l, items, props))
  }

  /** The sections a node's own variant for `l` applies: its sections of that locale, or as written the source's list. */
  function OwnSections(secs: seq<Section>, l: string, asWritten: bool): seq<Section>
  {
    if asWritten then Lookup(PartitionAsWritten(secs).bylocale, l) else OfLocale(secs, l)
  }

  /** The node with the sections of its comment that have no locale applied in order. */
  function Updated(s: Schema, ap: Applier): (r: Schema)
    requires Lawful(ap)
    ensures Keeps(s, r) && (CommentFree(s) ==> r == s)
    ensures r == ap(s, WithoutLocale(CommentSections(s.comment)))
  {
    CommentFreeNoSections(s);
    PartitionNoLocale(CommentSections(s.comment));
    ap(s, PartitionSections(CommentSections(s.comment)).nolocale)
  }

  /** The items of `o`, the updated form of `s`, each resolved. */
  function ResolveItems(ghost s: Schema, o: Schema, ap: Applier, asWritten: bool): (r: seq<I18nSchema>)
    requires Lawful(ap) && Keeps(s, o) && (CommentFree(s) ==> o == s)
    ensures |r| == |o.items|
    decreases if CommentFree(s) then 0 else 1, s, 0
  {
    seq(|o.items|, i requires 0 <= i < |o.items| => Resolve(o.items[i], ap, asWritten))
  }

  /** The properties of `o`, the updated form of `s`, each resolved. */
  function ResolveProps(ghost s: Schema, o: Schema, ap: Applier, asWritten: bool): (r: seq<I18nSchema>)
    requires Lawful(ap) && Keeps(s, o) && (CommentFree(s) ==> o == s)
    ensures |r| == |PropList(o)|
    decreases if CommentFree(s) then 0 else 1, s, 0
  {
    var list := PropList(o);
    seq(|list|, i requires 0 <= i < |list| => Resolve(list[i].schema, ap, asWritten))
  }

  /** The resolved items up to `i`, then item `i` resolved, are the resolved items up to `i + 1`. */
  lemma ResolveItemsPrefix(s: Schema, o: Schema, ap: Applier, asWritten: bool, i: nat, sub: I18nSchema)
    requires Lawful(ap) && Keeps(s, o) && (CommentFree(s) ==> o == s) && i < |o.items|
    requires sub == Resolve(o.items[i], ap, asWritten)
    ensures ResolveItems(s, o, ap, asWritten)[..i] + [sub] == ResolveItems(s, o, ap, asWritten)[..i + 1]
  {
    ResolveItemsAt(s, o, ap, asWritten, i);
    PrefixSnoc(ResolveItems(s, o, ap, asWritten), i, sub);
  }

  /** The resolved properties up to `i`, then property `i` resolved, are those up to `i + 1`. */
  lemma ResolvePropsPrefix(s: Schema, o: Schema, ap: Applier, asWritten: bool, i: nat, sub: I18nSchema)
    requires Lawful(ap) && Keeps(s, o) && (CommentFree(s) ==> o == s) && i < |PropList(o)|
    requires sub == Resolve(PropList(o)[i].schema, ap, asWritten)
    ensures ResolveProps(s, o, ap, asWritten)[..i] + [sub] == ResolveProps(s, o, ap, asWritten)[..i + 1]
  {
    ResolvePropsAt(s, o, ap, asWritten, i);
    PrefixSnoc(ResolveProps(s, o, ap, asWritten), i, sub);
  }

  /** Position `i` of the resolved items is item `i` resolved. */
  lemma ResolveItemsAt(s: Schema, o: Schema, ap: Applier, asWritten: bool, i: nat)
    requires Lawful(ap) && Keeps(s, o) && (CommentFree(s) ==> o == s) && i < |o.items|
    ensures ResolveItems(s, o, ap, asWritten)[i] == Resolve(o.items[i], ap, asWritten)
  {
  }

  /** Position `i` of the resolved properties is property `i` resolved. */
  lemma ResolvePropsAt(s: Schema, o: Schema, ap: Applier, asWritten: bool, i: nat)
    requires Lawful(ap) && Keeps(s, o) && (CommentFree(s) ==> o == s) && i < |PropList(o)|
    ensures ResolveProps(s, o, ap, asWritten)[i] == Resolve(PropList(o)[i].schema, ap, asWritten)
  {
  }

  /** CompleteI18n with every locale variant cloned from the fully updated original. */
  function Complete(s: Schema, env: Env): (r: I18nSchema)
    requires Sound(env)
    ensures Locales(CommentSections(s.comment)) <= r.locales.Keys
  {
    ApplyingLawful(env);
    Resolve(s, Applying(env), false)
  }

  /** CompleteI18n as written. */
  function CompleteAsWritten(s: Schema, env: Env): (r: I18nSchema)
    requires Sound(env)
    ensures Locales(CommentSections(s.comment)) <= r.locales.Keys
  {
    ApplyingLawful(env);
    Resolve(s, Applying(env), true)
  }

  /** Complete is the resolution with the applier of `env`. */
  lemma CompleteIs(s: Schema, env: Env)
    requires Sound(env)
    ensures Lawful(Applying(env)) && Complete(s, env) == Resolve(s, Applying(env), false)
  {
    ApplyingLawful(env);
  }

  /** Resolve at one node, in terms of its updated form, its resolved children and its own variants. */
  lemma ResolveUnfold(s: Schema, ap: Applier, asWritten: bool)
    requires Lawful(ap)
    ensures var o := Updated(s, ap);
            var items := ResolveItems(s, o, ap, asWritten);
            var props := ResolveProps(s, o, ap, asWritten);
            var o2 := WrittenBack(o, items, props);
            var own := LocaleVariants(if asWritten then o else o2, Partitioned(CommentSections(s.comment), asWritten).bylocale, ap);
            Resolve(s, ap, asWritten) == Assemble(o2, own, items, props)
  {
    assert Resolve(s, ap, asWritten) == ResolveNode(s, ap, asWritten);
  }

  /**
   * The original of a resolved node is the node with its sections without locale applied, and
   * each child replaced by the original of the child resolved: names, order and count are kept.
   */
  lemma ResolveWritesBack(s: Schema, ap: Applier, asWritten: bool)
    requires Lawful(ap)
    ensures var o := Updated(s, ap);
            var r := Resolve(s, ap, asWritten).original;
            && r == o.(items := r.items, properties := r.properties) && r.properties.Props? == o.properties.Props?
            && |r.items| == |o.items|
            && (forall i | 0 <= i < |o.items| :: r.items[i] == Resolve(o.items[i], ap, asWritten).original)
            && |PropList(r)| == |PropList(o)|
            && forall i | 0 <= i < |PropList(o)| ::
                 PropList(r)[i] == Property(PropList(o)[i].name, Resolve(PropList(o)[i].schema, ap, asWritten).original)
  {
    var o := Updated(s, ap);
    var items := ResolveItems(s, o, ap, asWritten);
    var props := ResolveProps(s, o, ap, asWritten);
    assert Resolve(s, ap, asWritten).original == WrittenBack(o, items, props) by {
      ResolveUnfold(s, ap, asWritten);
    }
    forall i | 0 <= i < |o.items| ensures items[i] == Resolve(o.items[i], ap, asWritten) {
      ResolveItemsAt(s, o, ap, asWritten, i);
    }
    forall i | 0 <= i < |PropList(o)| ensures props[i] == Resolve(PropList(o)[i].schema, ap, asWritten) {
      ResolvePropsAt(s, o, ap, asWritten, i);
    }
  }

  /** The keys of the variants of a resolved node. */
  lemma ResolveKeys(s: Schema, ap: Applier, asWritten: bool)
    requires Lawful(ap)
    ensures var o := Updated(s, ap);
            Resolve(s, ap, asWritten).locales.Keys
            == Locales(CommentSections(s.comment)) + ChildLocales(ResolveItems(s, o, ap, asWritten)) + ChildLocales(ResolveProps(s, o, ap, asWritten))
  {
    var secs := CommentSections(s.comment);
    var o := Updated(s, ap);
    var items := ResolveItems(s, o, ap, asWritten);
    var props := ResolveProps(s, o, ap, asWritten);
    var own := LocaleVariants(if asWritten then o else WrittenBack(o, items, props), Partitioned(secs, asWritten).bylocale, ap);
    assert Resolve(s, ap, asWritten).locales.Keys == own.Keys + ChildLocales(items) + ChildLocales(props) by {
      ResolveUnfold(s, ap, asWritten);
    }
    assert own.Keys == Locales(secs) by {
      PartitionedShape(secs, asWritten);
    }
  }

  /**
   * The locales of a resolved node are those its own comment names and those of its resolved
   * children.
   */
  lemma ResolveLocaleKeys(s: Schema, ap: Applier, asWritten: bool, l: string)
    requires Lawful(ap)
    ensures var o := Updated(s, ap);
            l in Resolve(s, ap, asWritten).locales
            <==> || l in Locales(CommentSections(s.comment))
                 || (exists i | 0 <= i < |o.items| :: l in Resolve(o.items[i], ap, asWritten).locales)
                 || (exists i | 0 <= i < |PropList(o)| :: l in Resolve(PropList(o)[i].schema, ap, asWritten).locales)
  {
    var o := Updated(s, ap);
    var items := ResolveItems(s, o, ap, asWritten);
    var props := ResolveProps(s, o, ap, asWritten);
    ResolveKeys(s, ap, asWritten);
    ChildLocalesMembers(items, l);
    ChildLocalesMembers(props, l);
    forall i | 0 <= i < |o.items| ensures items[i] == Resolve(o.items[i], ap, asWritten) {
      ResolveItemsAt(s, o, ap, asWritten, i);
    }
    forall i | 0 <= i < |PropList(o)| ensures props[i] == Resolve(PropList(o)[i].schema, ap, asWritten) {
      ResolvePropsAt(s, o, ap, asWritten, i);
    }
  }

  /** The locales collect up to the root: a node has a variant for every locale of an item child. */
  lemma ItemLocalesReachParent(s: Schema, ap: Applier, asWritten: bool, i: nat)
    requires Lawful(ap) && i < |Updated(s, ap).items|
    ensures Resolve(Updated(s, ap).items[i], ap, asWritten).locales.Keys <= Resolve(s, ap, asWritten).locales.Keys
  {
    forall l | l in Resolve(Updated(s, ap).items[i], ap, asWritten).locales
      ensures l in Resolve(s, ap, asWritten).locales
    {
      ResolveLocaleKeys(s, ap, asWritten, l);
    }
  }

  /** The locales collect up to the root: a node has a variant for every locale of a property child. */
  lemma PropertyLocalesReachParent(s: Schema, ap: Applier, asWritten: bool, i: nat)
    requires Lawful(ap) && i < |PropList(Updated(s, ap))|
    ensures Resolve(PropList(Updated(s, ap))[i].schema, ap, asWritten).locales.Keys <= Resolve(s, ap, asWritten).locales.Keys
  {
    forall l | l in Resolve(PropList(Updated(s, ap))[i].schema, ap, asWritten).locales
      ensures l in Resolve(s, ap, asWritten).locales
    {
      ResolveLocaleKeys(s, ap, asWritten, l);
    }
  }

  /**
   * The variant of locale `l` of a resolved node: it starts from the node's original with the
   * children written back, with that locale's own sections applied when the comment names it (as
   * written, the source's list for `l` is applied to the original before the write-back); then
   * each resolved child with a variant for `l` has it at its position.
   */
  lemma ResolveVariant(s: Schema, ap: Applier, asWritten: bool, l: string)
    requires Lawful(ap) && l in Resolve(s, ap, asWritten).locales
    ensures var secs := CommentSections(s.comment);
            var o := Updated(s, ap);
            var r := Resolve(s, ap, asWritten);
            var base := if l in Locales(secs) then ap(if asWritten then o else r.original, OwnSections(secs, l, asWritten)) else r.original;
            r.locales[l] == Merged(base, l, ResolveItems(s, o, ap, asWritten), ResolveProps(s, o, ap, asWritten))
  {
    var secs := CommentSections(s.comment);
    var o := Updated(s, ap);
    var items := ResolveItems(s, o, ap, asWritten);
    var props := ResolveProps(s, o, ap, asWritten);
    var o2 := WrittenBack(o, items, props);
    var own := LocaleVariants(if asWritten then o else o2, Partitioned(secs, asWritten).bylocale, ap);
    var r := Resolve(s, ap, asWritten);
    assert r.original == o2 && r.locales[l] == Merged(Base(own, o2, l), l, items, props) by {
      ResolveUnfold(s, ap, asWritten);
    }
    assert l in own <==> l in Locales(secs) by {
      PartitionedShape(secs, asWritten);
    }
    if l in own {
      assert own[l] == ap(if asWritten then o else o2, OwnSections(secs, l, asWritten)) by {
        PartitionIsFilter(secs);
      }
    }
  }

  /**
   * A locale only children have: the node's variant is its original with the children written
   * back, except that an item child with a variant for it has that variant at its position.
   */
  lemma ChildOnlyLocaleItem(s: Schema, ap: Applier, asWritten: bool, l: string, i: nat)
    requires Lawful(ap) && l in Resolve(s, ap, asWritten).locales && l !in Locales(CommentSections(s.comment))
    requires i < |Updated(s, ap).items|
    ensures var r := Resolve(s, ap, asWritten);
            var sub := Resolve(Updated(s, ap).items[i], ap, asWritten);
            && r.locales[l] == r.original.(items := r.locales[l].items, properties := r.locales[l].properties)
            && i < |r.locales[l].items|
            && r.locales[l].items[i] == if l in sub.locales then sub.locales[l] else sub.original
  {
    var o := Updated(s, ap);
    ResolveVariant(s, ap, asWritten, l);
    ResolveWritesBack(s, ap, asWritten);
    ResolveItemsAt(s, o, ap, asWritten, i);
  }

  /**
   * A locale only children have: a property child with a variant for it has that variant at its
   * position, under its name; every other property is the written-back original.
   */
  lemma ChildOnlyLocaleProperty(s: Schema, ap: Applier, asWritten: bool, l: string, i: nat)
    requires Lawful(ap) && l in Resolve(s, ap, asWritten).locales && l !in Locales(CommentSections(s.comment))
    requires i < |PropList(Updated(s, ap))|
    ensures var r := Resolve(s, ap, asWritten);
            var p := PropList(Updated(s, ap))[i];
            var sub := Resolve(p.schema, ap, asWritten);
            && i < |PropList(r.locales[l])|
            && PropList(r.locales[l])[i] == Property(p.name, if l in sub.locales then sub.locales[l] else sub.original)
  {
    var o := Updated(s, ap);
    ResolveVariant(s, ap, asWritten, l);
    ResolveWritesBack(s, ap, asWritten);
    ResolvePropsAt(s, o, ap, asWritten, i);
  }

  /** A tree without comments resolves to itself, with no variant. */
  lemma {:induction false} ResolveCommentFree(s: Schema, ap: Applier, asWritten: bool)
    requires Lawful(ap) && CommentFree(s)
    ensures Resolve(s, ap, asWritten) == I18nSchema(s, map[])
    decreases s
  {
    var o := Updated(s, ap);
    var items := ResolveItems(s, o, ap, asWritten);
    var props := ResolveProps(s, o, ap, asWritten);
    forall i | 0 <= i < |s.items| ensures items[i] == I18nSchema(s.items[i], map[]) {
      ResolveItemsAt(s, o, ap, asWritten, i);
      ResolveCommentFree(s.items[i], ap, asWritten);
    }
    forall i | 0 <= i < |PropList(s)| ensures props[i] == I18nSchema(PropList(s)[i].schema, map[]) {
      ResolvePropsAt(s, o, ap, asWritten, i);
      assert PropList(s)[i] == s.properties.list[i];
      ResolveCommentFree(PropList(s)[i].schema, ap, asWritten);
    }
    CommentFreeNode(s, ap, asWritten);
  }

  /** A node without comments whose children resolve to themselves resolves to itself. */
  lemma CommentFreeNode(s: Schema, ap: Applier, asWritten: bool)
    requires Lawful(ap) && CommentFree(s)
    requires var items := ResolveItems(s, Updated(s, ap), ap, asWritten);
             forall i | 0 <= i < |s.items| :: items[i] == I18nSchema(s.items[i], map[])
    requires var props := ResolveProps(s, Updated(s, ap), ap, asWritten);
             forall i | 0 <= i < |PropList(s)| :: props[i] == I18nSchema(PropList(s)[i].schema, map[])
    ensures Resolve(s, ap, asWritten) == I18nSchema(s, map[])
  {
    var o := Updated(s, ap);
    var items := ResolveItems(s, o, ap, asWritten);
    var props := ResolveProps(s, o, ap, asWritten);
    var r := Resolve(s, ap, asWritten);
    assert r.locales == map[] by {
      ChildLocalesNone(items);
      ChildLocalesNone(props);
      ResolveKeys(s, ap, asWritten);
    }
    assert r.original == s by {
      ResolveWritesBack(s, ap, asWritten);
      assert r.original.items == s.items;
      assert r.original.properties == s.properties by {
        if s.properties.Props? {
          assert PropList(r.original) == PropList(s);
        }
      }
    }
  }

  /** Children without variants bring no locale. */
  lemma {:induction false} ChildLocalesNone(subs: seq<I18nSchema>)
    requires forall i | 0 <= i < |subs| :: subs[i].locales == map[]
    ensures ChildLocales(subs) == {}
  {
    if subs != [] {
      ChildLocalesNone(subs[..|subs| - 1]);
    }
  }

  /** CompleteI18n on a tree without comments: the tree itself, with no variant. */
  lemma CompleteCommentFree(s: Schema, env: Env)
    requires Sound(env) && CommentFree(s)
    ensures Complete(s, env) == I18nSchema(s, map[])
  {
    CompleteIs(s, env);
    ResolveCommentFree(s, Applying(env), false);
  }

  // ----- the merge loops of CompleteI18n -----

  /** Where the variant of locale `l` starts from: the node's own variant, else the original. */
  function Base(own: map<string, Schema>, orig: Schema, l: string): Schema
  {
    if l in own then own[l] else orig
  }

  /** The variants after the merge of the given children. */
  ghost predicate MergedUpTo(locales: map<string, Schema>, own: map<string, Schema>, orig: Schema,
                             items: seq<I18nSchema>, props: seq<I18nSchema>)
  {
    && locales.Keys == own.Keys + ChildLocales(items) + ChildLocales(props)
    && forall l | l in locales :: locales[l] == Merged(Base(own, orig, l), l, items, props)
  }

  /** Before any child, each variant is where it starts from. */
  lemma MergedNothing(base: Schema, l: string)
    ensures Merged(base, l, [], []) == base
  {
    var r := Merged(base, l, [], []);
    assert r.items == base.items;
    assert r.properties == base.properties by {
      if base.properties.Props? {
        assert r.properties.list == base.properties.list;
      }
    }
  }

  /** One more item child: its variant for `l`, if it has one, goes to its position. */
  lemma MergedItemStep(base: Schema, l: string, items: seq<I18nSchema>, x: I18nSchema)
    ensures Merged(base, l, items + [x], [])
         == if l in x.locales then PutItem(Merged(base, l, items, []), |items|, x.locales[l]) else Merged(base, l, items, [])
  {
    var a := Merged(base, l, items + [x], []);
    var b := Merged(base, l, items, []);
    var c := if l in x.locales then PutItem(b, |items|, x.locales[l]) else b;
    assert a.items == c.items by {
      forall i | 0 <= i < |base.items| ensures a.items[i] == c.items[i] {
        if i < |items| {
          assert (items + [x])[i] == items[i];
        }
      }
    }
    assert a.properties == c.properties by {
      if base.properties.Props? {
        assert PropList(a) == PropList(c);
      }
    }
  }

  /** One more property child: its variant for `l`, if it has one, goes to its position. */
  lemma MergedPropertyStep(base: Schema, l: string, items: seq<I18nSchema>, props: seq<I18nSchema>, x: I18nSchema)
    ensures Merged(base, l, items, props + [x])
         == if l in x.locales then PutProperty(Merged(base, l, items, props), |props|, x.locales[l])
            else Merged(base, l, items, props)
  {
    var a := Merged(base, l, items, props + [x]);
    var b := Merged(base, l, items, props);
    var c := if l in x.locales then PutProperty(b, |props|, x.locales[l]) else b;
    assert a.items == c.items;
    assert a.properties == c.properties by {
      if base.properties.Props? {
        assert PropList(a) == PropList(c) by {
          forall i | 0 <= i < |PropList(base)| ensures PropList(a)[i] == PropList(c)[i] {
            if i < |props| {
              assert (props + [x])[i] == props[i];
            }
          }
        }
      }
    }
  }

  /** A locale no child has a variant for leaves the variant where it started. */
  lemma MergedUntouched(base: Schema, l: string, items: seq<I18nSchema>, props: seq<I18nSchema>)
    requires l !in ChildLocales(items) && l !in ChildLocales(props)
    ensures Merged(base, l, items, props) == base
  {
    ChildLocalesMembers(items, l);
    ChildLocalesMembers(props, l);
    var r := Merged(base, l, items, props);
    assert r.items == base.items;
    assert r.properties == base.properties by {
      if base.properties.Props? {
        assert r.properties.list == base.properties.list;
      }
    }
  }

  /**
   * The merge loop body for one item child: a locale new to the node is cloned from the
   * original, then the child's variant is stored at position `i`.
   */
  method MergeItemLocales(locales: map<string, Schema>, orig: Schema, i: nat, sub: map<string, Schema>)
    returns (r: map<string, Schema>)
    ensures r.Keys == locales.Keys + sub.Keys
    ensures forall l | l in r ::
              r[l] == if l in sub then PutItem(if l in locales then locales[l] else orig, i, sub[l]) else locales[l]
  {
    r := locales;
    var todo := sub.Keys;
    while todo != {}
      invariant todo <= sub.Keys
      invariant r.Keys == locales.Keys + (sub.Keys - todo)
      invariant forall l | l in r ::
                  r[l] == if l in sub && l !in todo then PutItem(if l in locales then locales[l] else orig, i, sub[l]) else locales[l]
      decreases todo
    {
      var l :| l in todo;
      // a locale new to the node starts as a copy of the original
      var v := if l in r then r[l] else orig;
      r := r[l := PutItem(v, i, sub[l])];
      todo := todo - {l};
    }
  }

  /** The merge loop body for one property child. */
  method MergePropertyLocales(locales: map<string, Schema>, orig: Schema, i: nat, sub: map<string, Schema>)
    returns (r: map<string, Schema>)
    ensures r.Keys == locales.Keys + sub.Keys
    ensures forall l | l in r ::
              r[l] == if l in sub then PutProperty(if l in locales then locales[l] else orig, i, sub[l]) else locales[l]
  {
    r := locales;
    var todo := sub.Keys;
    while todo != {}
      invariant todo <= sub.Keys
      invariant r.Keys == locales.Keys + (sub.Keys - todo)
      invariant forall l | l in r ::
                  r[l] == if l in sub && l !in todo then PutProperty(if l in locales then locales[l] else orig, i, sub[l]) else locales[l]
      decreases todo
    {
      var l :| l in todo;
      // a locale new to the node starts as a copy of the original
      var v := if l in r then r[l] else orig;
      r := r[l := PutProperty(v, i, sub[l])];
      todo := todo - {l};
    }
  }

  /** The item merge keeps the merged state one child further. */
  lemma MergeItemsStep(before: map<string, Schema>, after: map<string, Schema>, own: map<string, Schema>,
                       orig: Schema, items: seq<I18nSchema>, x: I18nSchema)
    requires MergedUpTo(before, own, orig, items, [])
    requires after.Keys == before.Keys + x.locales.Keys
    requires forall l | l in after ::
               after[l] == if l in x.locales then PutItem(if l in before then before[l] else orig, |items|, x.locales[l]) else before[l]
    ensures MergedUpTo(after, own, orig, items + [x], [])
  {
    ChildLocalesSnoc(items, x);
    KeysGrow(after.Keys, before.Keys, own.Keys, ChildLocales(items), ChildLocales([]), x.locales.Keys);
    forall l | l in after ensures after[l] == Merged(Base(own, orig, l), l, items + [x], []) {
      MergeItemStepAt(before, own, orig, items, x, l, after[l]);
    }
  }

  lemma MergeItemStepAt(before: map<string, Schema>, own: map<string, Schema>,
                        orig: Schema, items: seq<I18nSchema>, x: I18nSchema, l: string, v: Schema)
    requires MergedUpTo(before, own, orig, items, [])
    requires l in before || l in x.locales
    requires v == if l in x.locales then PutItem(if l in before then before[l] else orig, |items|, x.locales[l]) else before[l]
    ensures v == Merged(Base(own, orig, l), l, items + [x], [])
  {
    var b := Base(own, orig, l);
    MergedItemStep(b, l, items, x);
    if l !in before {
      assert l !in own && l !in ChildLocales(items) && l !in ChildLocales([]);
      MergedUntouched(orig, l, items, []);
    } else {
      assert before[l] == Merged(b, l, items, []);
    }
  }

  /** The property merge keeps the merged state one child further. */
  lemma MergePropertiesStep(before: map<string, Schema>, after: map<string, Schema>, own: map<string, Schema>,
                            orig: Schema, items: seq<I18nSchema>, props: seq<I18nSchema>, x: I18nSchema)
    requires MergedUpTo(before, own, orig, items, props)
    requires after.Keys == before.Keys + x.locales.Keys
    requires forall l | l in after ::
               after[l] == if l in x.locales then PutProperty(if l in before then before[l] else orig, |props|, x.locales[l]) else before[l]
    ensures MergedUpTo(after, own, orig, items, props + [x])
  {
    ChildLocalesSnoc(props, x);
    KeysGrow(after.Keys, before.Keys, own.Keys + ChildLocales(items), ChildLocales(props), {}, x.locales.Keys);
    forall l | l in after ensures after[l] == Merged(Base(own, orig, l), l, items, props + [x]) {
      MergePropertyStepAt(before, own, orig, items, props, x, l, after[l]);
    }
  }

  lemma MergePropertyStepAt(before: map<string, Schema>, own: map<string, Schema>, orig: Schema,
                            items: seq<I18nSchema>, props: seq<I18nSchema>, x: I18nSchema, l: string, v: Schema)
    requires MergedUpTo(before, own, orig, items, props)
    requires l in before || l in x.locales
    requires v == if l in x.locales then PutProperty(if l in before then before[l] else orig, |props|, x.locales[l]) else before[l]
    ensures v == Merged(Base(own, orig, l), l, items, props + [x])
  {
    var b := Base(own, orig, l);
    MergedPropertyStep(b, l, items, props, x);
    if l !in before {
      assert l !in own && l !in ChildLocales(items) && l !in ChildLocales(props);
      MergedUntouched(orig, l, items, props);
    } else {
      assert before[l] == Merged(b, l, items, props);
    }
  }

  /** Before the merge, the variants are the node's own. */
  lemma MergedStart(own: map<string, Schema>, orig: Schema)
    ensures MergedUpTo(own, own, orig, [], [])
  {
    forall l | l in own ensures own[l] == Merged(Base(own, orig, l), l, [], []) {
      MergedNothing(own[l], l);
    }
  }

  /** The merged variants are the map Resolve builds. */
  lemma MergedUpToMap(locales: map<string, Schema>, own: map<string, Schema>, orig: Schema,
                      items: seq<I18nSchema>, props: seq<I18nSchema>)
    requires MergedUpTo(locales, own, orig, items, props)
    ensures locales == map l | l in own.Keys + ChildLocales(items) + ChildLocales(props) :: Merged(Base(own, orig, l), l, items, props)
  {
  }

  /** The node as Resolve sees it: the sections, the resolved children and the variants. */
  lemma ResolveIs(s: Schema, env: Env, o: Schema, items: seq<I18nSchema>, props: seq<I18nSchema>,
                  own: map<string, Schema>, locales: map<string, Schema>)
    requires Sound(env) && Lawful(Applying(env))
    requires o == ApplyAll(s, PartitionSections(CommentSections(s.comment)).nolocale, env)
    requires Keeps(s, o) && (CommentFree(s) ==> o == s)
    requires items == ResolveItems(s, o, Applying(env), false)
    requires props == ResolveProps(s, o, Applying(env), false)
    requires own == LocaleVariants(WrittenBack(o, items, props), PartitionSections(CommentSections(s.comment)).bylocale, Applying(env))
    requires MergedUpTo(locales, own, WrittenBack(o, items, props), items, props)
    ensures Complete(s, env) == I18nSchema(WrittenBack(o, items, props), locales)
  {
    MergedUpToMap(locales, own, WrittenBack(o, items, props), items, props);
    assert Resolve(s, Applying(env), false) == ResolveNode(s, Applying(env), false);
  }

  /** The write-back loops: each child's original replaces the child. */
  method WriteBack(ref: SchemaRef, items: seq<I18nSchema>, props: seq<I18nSchema>)
    modifies ref
    requires |items| == |ref.value.items| && |props| == |PropList(ref.value)|
    ensures ref.value == WrittenBack(old(ref.value), items, props)
  {
    ghost var o := ref.value;
    ghost var list := PropList(o);
    for i := 0 to |items|
      invariant ref.value == o.(items := ref.value.items) && |ref.value.items| == |o.items|
      invariant forall k | 0 <= k < |o.items| :: ref.value.items[k] == if k < i then items[k].original else o.items[k]
    {
      ref.value := ref.value.(items := ref.value.items[i := items[i].original]);
    }
    ghost var o1 := ref.value;
    for i := 0 to |props|
      invariant ref.value == o1.(properties := ref.value.properties)
      invariant ref.value.properties.Props? == o1.properties.Props? && |PropList(ref.value)| == |list|
      invariant forall k | 0 <= k < |list| ::
                  PropList(ref.value)[k] == if k < i then list[k].(schema := props[k].original) else list[k]
    {
      var ps := ref.value.properties.list;
      ref.value := ref.value.(properties := Props(ps[i := ps[i].(schema := props[i].original)]));
    }
    assert ref.value.items == WrittenBack(o, items, props).items;
    assert ref.value.properties == WrittenBack(o, items, props).properties by {
      if ref.value.properties.Props? {
        assert PropList(ref.value) == PropList(WrittenBack(o, items, props));
      }
    }
  }

  /** The merge loops over the item children, then over the property children. */
  method MergeChildren(own: map<string, Schema>, orig: Schema, items: seq<I18nSchema>, props: seq<I18nSchema>)
    returns (locales: map<string, Schema>)
    ensures MergedUpTo(locales, own, orig, items, props)
  {
    locales := own;
    MergedStart(own, orig);
    for i := 0 to |items|
      invariant MergedUpTo(locales, own, orig, items[..i], [])
    {
      var next := MergeItemLocales(locales, orig, i, items[i].locales);
      MergeItemsStep(locales, next, own, orig, items[..i], items[i]);
      assert items[..i] + [items[i]] == items[..i + 1];
      locales := next;
    }
    assert items[..|items|] == items;
    for i := 0 to |props|
      invariant MergedUpTo(locales, own, orig, items, props[..i])
    {
      var next := MergePropertyLocales(locales, orig, i, props[i].locales);
      MergePropertiesStep(locales, next, own, orig, items, props[..i], props[i]);
      assert props[..i] + [props[i]] == props[..i + 1];
      locales := next;
    }
    assert props[..|props|] == props;
  }

  /**
   * CompleteI18n: the node's sections without locale, then every child resolved and its
   * original written back, then the node's own locale variants cloned from the updated original
   * and every child's variants merged in at the child's position. No section application
   * fails, so the error is nil.
   */
  method CompleteI18n(s: Schema, env: Env) returns (r: I18nSchema, err: Option<string>)
    requires Sound(env)
    ensures r == Complete(s, env) && err == None
    decreases if CommentFree(s) then 0 else 1, s
  {
    var secs := ParseComment(s.comment);
    var p := SplitByLocale(secs);
    var ref := new SchemaRef(s);
    var errs := ApplySections(ref, p.nolocale, env);
    var o := ref.value;
    ApplyingLawful(env);
    assert SameShape(s, o, env);
    CommentFreeNoSections(s);
    var items, e1 := CompleteItems(s, o, env);
    var props, e2 := CompleteProperties(s, o, env);
    // the children's originals go back into the node before any variant is cloned from it
    WriteBack(ref, items, props);
    var own, more := ApplyLocales(ref.value, p.bylocale, env);
    var locales := MergeChildren(own, ref.value, items, props);
    ResolveIs(s, env, o, items, props, own, locales);
    r := I18nSchema(ref.value, locales);
    err := CombineErrors(errs + e1 + e2 + more);
  }

  /** The loop over the items of `o`, the updated form of `s`: each one completed in turn. */
  method CompleteItems(ghost s: Schema, o: Schema, env: Env) returns (items: seq<I18nSchema>, errs: seq<string>)
    requires Sound(env) && Lawful(Applying(env)) && Keeps(s, o) && (CommentFree(s) ==> o == s)
    ensures items == ResolveItems(s, o, Applying(env), false) && errs == []
    decreases if CommentFree(s) then 0 else 1, s, 1
  {
    items := [];
    errs := [];
    for i := 0 to |o.items|
      invariant items == ResolveItems(s, o, Applying(env), false)[..i] && errs == []
    {
      var sub, e := CompleteItem(s, o, env, i);
      ResolveItemsPrefix(s, o, Applying(env), false, i, sub);
      errs := errs + Errors(e);
      items := items + [sub];
    }
    WholePrefix(ResolveItems(s, o, Applying(env), false));
  }

  /** Item `i` of `o` completed. */
  method CompleteItem(ghost s: Schema, o: Schema, env: Env, i: nat) returns (sub: I18nSchema, e: Option<string>)
    requires Sound(env) && Lawful(Applying(env)) && Keeps(s, o) && (CommentFree(s) ==> o == s) && i < |o.items|
    ensures sub == Resolve(o.items[i], Applying(env), false) && e == None
    decreases if CommentFree(s) then 0 else 1, s, 0
  {
    sub, e := CompleteI18n(o.items[i], env);
    CompleteIs(o.items[i], env);
  }

  /** The loop over the properties of `o`, the updated form of `s`: each one completed in turn. */
  method CompleteProperties(ghost s: Schema, o: Schema, env: Env) returns (props: seq<I18nSchema>, errs: seq<string>)
    requires Sound(env) && Lawful(Applying(env)) && Keeps(s, o) && (CommentFree(s) ==> o == s)
    ensures props == ResolveProps(s, o, Applying(env), false) && errs == []
    decreases if CommentFree(s) then 0 else 1, s, 1
  {
    props := [];
    errs := [];
    for i := 0 to |PropList(o)|
      invariant props == ResolveProps(s, o, Applying(env), false)[..i] && errs == []
    {
      var sub, e := CompleteProperty(s, o, env, i);
      ResolvePropsPrefix(s, o, Applying(env), false, i, sub);
      errs := errs + Errors(e);
      props := props + [sub];
    }
    WholePrefix(ResolveProps(s, o, Applying(env), false));
  }

  /** Property `i` of `o` completed. */
  method CompleteProperty(ghost s: Schema, o: Schema, env: Env, i: nat) returns (sub: I18nSchema, e: Option<string>)
    requires Sound(env) && Lawful(Applying(env)) && Keeps(s, o) && (CommentFree(s) ==> o == s) && i < |PropList(o)|
    ensures sub == Resolve(PropList(o)[i].schema, Applying(env), false) && e == None
    decreases if CommentFree(s) then 0 else 1, s, 0
  {
    sub, e := CompleteI18n(PropList(o)[i].schema, env);
    CompleteIs(PropList(o)[i].schema, env);
  }
}
