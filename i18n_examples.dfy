/**
 * A parent whose comment is `# @title.zh P` with one item whose comment is `# @title B`: the
 * item's title reaches the original of the parent, and, once the locale variant is cloned from
 * that original, the "zh" variant too; as written (the variant cloned before the write-back), the
 * "zh" variant keeps the item as it was before its own sections were applied (see README,
 * Findings).
 */
module I18nExamples {
  import opened Wrappers
  import opened Text
  import opened Scanner
  import opened Spec
  import opened Annotate
  import opened I18n
  import opened ScannerExamples

  /** The item: an empty schema under the comment `# @title B`. */
  const Child: Schema := Empty.(comment := "# @title B")

  /** The parent: an empty schema under the comment `# @title.zh P`, holding the item. */
  const Parent: Schema := Empty.(comment := "# @title.zh P", items := [Child])

  /** A title section has no locale. */
  lemma TitleHasNoLocale(sec: Section, v: string)
    requires sec == Section(v, "@title", v, [])
    ensures LocaleOf(sec) == ""
  {
    assert Index(sec.name, '.') == -1 by {
      assert '.' !in sec.name;
    }
  }

  /** A `title.zh` section has locale "zh" and is a title section under its base name. */
  lemma TitleOfZh(sec: Section, v: string)
    requires sec == Section(v, "@title.zh", v, [])
    ensures LocaleOf(sec) == "zh" && BaseSection(sec) == Section(v, "@title", v, [])
  {
    LocalisedName(sec, "@title", "zh");
  }

  /** Applying one `@title v` section sets the title and keeps the items. */
  lemma ApplyTitle(x: Schema, v: string, env: Env)
    requires v != []
    ensures var r := ApplyAll(x, [Section(v, "@title", v, [])], env);
            r.title == v && r.items == x.items
  {
    var sec := Section(v, "@title", v, []);
    assert [sec][..0] == [];
    assert TrimPrefix(sec.name, "@") == "title" by {
      assert HasPrefix(sec.name, "@");
    }
    TitleForm(x, sec, env);
    DefaultCases(x, "title", sec, env);
    TitleFormFields();
  }

  /** A comment of one section without locale. */
  lemma OneSection(secs: seq<Section>, sec: Section)
    requires secs == [sec] && LocaleOf(sec) == ""
    ensures Locales(secs) == {} && WithoutLocale(secs) == secs
  {
    assert secs[..0] == [];
  }

  /** A comment of one section of locale `l`. */
  lemma OneLocalisedSection(secs: seq<Section>, sec: Section, l: string)
    requires secs == [sec] && LocaleOf(sec) == l && l != ""
    ensures Locales(secs) == {l} && WithoutLocale(secs) == [] && OfLocale(secs, l) == [BaseSection(sec)]
    ensures OwnSections(secs, l, false) == OwnSections(secs, l, true) == [BaseSection(sec)]
  {
    assert secs[..0] == [];
    assert PartitionAsWritten(secs) == Partition([], map[l := [BaseSection(sec)]]) by {
      assert secs[..|secs| - 1] == [] && secs[|secs| - 1] == sec;
      var p := PartitionAsWritten(secs[..|secs| - 1]);
      assert p == Partition([], map[]);
      assert Lookup(p.bylocale, SplitKeyLocale(sec.name).0) == [];
      assert PartitionAsWritten(secs) == p.(bylocale := p.bylocale[l := [] + [BaseSection(sec)]]);
      assert [] + [BaseSection(sec)] == [BaseSection(sec)];
      var none: map<string, seq<Section>> := map[];
      assert none[l := [BaseSection(sec)]] == map[l := [BaseSection(sec)]];
    }
  }

  /** A comment of one title section: no locale, and the section is applied to the original. */
  lemma TitleSections(secs: seq<Section>, v: string)
    requires secs == [Section(v, "@title", v, [])]
    ensures Locales(secs) == {} && WithoutLocale(secs) == secs
  {
    TitleHasNoLocale(secs[0], v);
    OneSection(secs, secs[0]);
  }

  /** A comment of one `title.zh` section: locale "zh" alone, holding the title section. */
  lemma TitleZhSections(secs: seq<Section>, w: string)
    requires secs == [Section(w, "@title.zh", w, [])]
    ensures Locales(secs) == {"zh"} && WithoutLocale(secs) == []
    ensures OwnSections(secs, "zh", false) == OwnSections(secs, "zh", true) == [Section(w, "@title", w, [])]
  {
    TitleOfZh(secs[0], w);
    OneLocalisedSection(secs, secs[0], "zh");
  }

  /**
   * An item whose comment is one title, which the applier sets: it resolves to its titled
   * original and has no variant.
   */
  lemma ChildResolves(c: Schema, v: string, ap: Applier, asWritten: bool)
    requires Lawful(ap) && v != [] && c.items == [] && c.properties == NoProps
    requires CommentSections(c.comment) == [Section(v, "@title", v, [])]
    requires ap(c, [Section(v, "@title", v, [])]).title == v && ap(c, [Section(v, "@title", v, [])]).items == []
    ensures Resolve(c, ap, asWritten).original.title == v
    ensures Resolve(c, ap, asWritten).locales.Keys == {}
  {
    var secs := CommentSections(c.comment);
    TitleSections(secs, v);
    var o := Updated(c, ap);
    assert o.title == v && o.items == [] && o.properties == NoProps;
    var r := Resolve(c, ap, asWritten);
    assert r.original.title == v by {
      ResolveWritesBack(c, ap, asWritten);
    }
    assert r.locales.Keys == {} by {
      ResolveKeys(c, ap, asWritten);
      assert ResolveItems(c, o, ap, asWritten) == [] && ResolveProps(c, o, ap, asWritten) == [];
    }
  }

  /**
   * A parent whose comment is one title of locale "zh", over one such item: the "zh" variant's
   * item is the item of the base it was cloned from, since the item has no variant of its own.
   */
  lemma ParentVariantItem(p: Schema, c: Schema, v: string, w: string, ap: Applier, asWritten: bool)
    requires Lawful(ap) && v != [] && w != [] && c.items == [] && c.properties == NoProps
    requires CommentSections(c.comment) == [Section(v, "@title", v, [])]
    requires ap(c, [Section(v, "@title", v, [])]).title == v && ap(c, [Section(v, "@title", v, [])]).items == []
    requires p.items == [c] && p.properties == NoProps
    requires CommentSections(p.comment) == [Section(w, "@title.zh", w, [])]
    requires forall x :: ap(x, [Section(w, "@title", w, [])]).items == x.items
    ensures var r := Resolve(p, ap, asWritten);
            && "zh" in r.locales && |r.locales["zh"].items| == 1
            && |r.original.items| == 1 && r.original.items[0].title == v
            && r.locales["zh"].items[0] == (if asWritten then c else r.original.items[0])
  {
    var secs := CommentSections(p.comment);
    TitleZhSections(secs, w);
    var o := Updated(p, ap);
    assert o == p;
    var r := Resolve(p, ap, asWritten);
    var sub := Resolve(c, ap, asWritten);
    ChildResolves(c, v, ap, asWritten);
    assert "zh" in r.locales by {
      ResolveKeys(p, ap, asWritten);
    }
    assert |r.original.items| == 1 && r.original.items[0] == sub.original by {
      ResolveWritesBack(p, ap, asWritten);
    }
    var from := if asWritten then o else r.original;
    var base := ap(from, [Section(w, "@title", w, [])]);
    var items := ResolveItems(p, o, ap, asWritten);
    assert r.locales["zh"] == Merged(base, "zh", items, ResolveProps(p, o, ap, asWritten)) by {
      ResolveVariant(p, ap, asWritten, "zh");
    }
    assert items[0] == sub by {
      ResolveItemsAt(p, o, ap, asWritten, 0);
    }
  }

  /**
   * The item's title reaches the "zh" variant of the parent once the variant is cloned from the
   * original with the item written back; as written, the variant's item has no title.
   */
  lemma OwnLocaleClonedBeforeWriteBack(env: Env)
    requires Sound(env)
    ensures var r := Complete(Parent, env);
            && |r.original.items| == 1 && r.original.items[0].title == "B"
            && "zh" in r.locales && |r.locales["zh"].items| == 1 && r.locales["zh"].items[0].title == "B"
    ensures var r := CompleteAsWritten(Parent, env);
            "zh" in r.locales && |r.locales["zh"].items| == 1 && r.locales["zh"].items[0].title == ""
  {
    ApplyingLawful(env);
    var ap := Applying(env);
    assert && ap(Child, [Section("B", "@title", "B", [])]).title == "B"
           && ap(Child, [Section("B", "@title", "B", [])]).items == []
           && CommentSections(Child.comment) == [Section("B", "@title", "B", [])]
           && CommentSections(Parent.comment) == [Section("P", "@title.zh", "P", [])]
           && forall x :: ap(x, [Section("P", "@title", "P", [])]).items == x.items
    by {
      forall x ensures ap(x, [Section("P", "@title", "P", [])]).items == x.items {
        ApplyTitle(x, "P", env);
      }
      ApplyTitle(Child, "B", env);
      ExampleTitle();
      ExampleLocalisedTitle();
    }
    var r := Resolve(Parent, ap, false);
    assert |r.original.items| == 1 && r.original.items[0].title == "B"
        && "zh" in r.locales && |r.locales["zh"].items| == 1 && r.locales["zh"].items[0].title == "B" by {
      ParentVariantItem(Parent, Child, "B", "P", ap, false);
    }
    var w := Resolve(Parent, ap, true);
    assert "zh" in w.locales && |w.locales["zh"].items| == 1 && w.locales["zh"].items[0].title == "" by {
      ParentVariantItem(Parent, Child, "B", "P", ap, true);
    }
  }
}
