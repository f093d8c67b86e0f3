/**
 * Small trees on which the older SplitSchemaI18n of schema/schema.go is worked out: a node's
 * own translation, and an item translated into a language the node has no variant for.
 */
module LegacySplitExamples {
  import opened Wrappers
  import opened Values
  import opened Spec
  import Text
  import Annotate
  import LegacyAnnotate
  import opened LegacySplit

  /** A range statement over an empty map visits nothing. */
  lemma OrderOfEmpty(h: Host, m: map<string, Value>)
    requires Enumerates(h) && m == map[]
    ensures h.order(m) == []
  {
    assert Visits(h.order(m), m);
  }

  /** A range statement over a map of one key visits that key. */
  lemma OrderOfOne(h: Host, m: map<string, Value>, k: string)
    requires Enumerates(h) && m.Keys == {k}
    ensures h.order(m) == [k]
  {
    var keys := h.order(m);
    assert Visits(keys, m);
    assert |m| == |m.Keys| == 1;
    assert k in keys;
  }

  /** "title.zh" is the key of the Chinese title. */
  lemma TitleZh()
    ensures '.' in "title.zh" && Cut("title.zh") == ("title", "zh")
  {
    var k := "title.zh";
    assert k[5] == '.';
    assert forall j | 0 <= j < |k| && j != 5 :: k[j] != '.';
    assert Text.Index(k, '.') == 5;
    assert k[..5] == "title" && k[6..] == "zh";
  }

  /** A node whose only extra property is the text `t` under the dotted key `k`. */
  function Translated(k: string, t: string): Schema
  {
    Empty.(extraProps := map[k := Str(t)])
  }

  /** The first loop over a single key. */
  lemma OwnLocalesOfOne(s: Schema, k: string, h: Host)
    requires Moved(s.extraProps, k, h)
    ensures OwnLocales(s, [k], h)
            == map[Cut(k).1 := LegacyAnnotate.SetProp(LocaleCopy(s), Cut(k).0, AsString(s.extraProps[k], h).value, h.env)]
  {
    assert [k][..0] == [];
  }

  /** The copy for such a node's language starts empty. */
  lemma TranslatedCopy(k: string, t: string)
    requires '.' in k
    ensures LocaleCopy(Translated(k, t)) == Empty
  {
    assert RemoveDotKey(Translated(k, t).extraProps) == map[];
  }

  /** Such a node has one variant of its own, for the language of `k`. */
  lemma TranslatedOwn(k: string, t: string, h: Host)
    requires Enumerates(h) && '.' in k
    ensures Own(Translated(k, t), h)
            == map[Cut(k).1 := LegacyAnnotate.SetProp(Empty, Cut(k).0, t, h.env)]
  {
    var s := Translated(k, t);
    OrderOfOne(h, s.extraProps, k);
    OwnLocalesOfOne(s, k, h);
    TranslatedCopy(k, t);
  }

  /** Such a node loses its only entry to the split. */
  lemma TranslatedStripped(k: string, t: string, h: Host)
    requires '.' in k
    ensures Stripped(Translated(k, t), h) == Empty
  {
    assert Moved(Translated(k, t).extraProps, k, h);
    assert Unmoved(Translated(k, t).extraProps, h) == map[];
  }

  /** A translated title: the node splits into the variant of its language titled `t`. */
  lemma TranslatedTitleSplit(k: string, t: string, h: Host)
    requires Enumerates(h) && '.' in k && Cut(k).0 == "title"
    ensures SplitI18n(Translated(k, t), h) == Some(map[Cut(k).1 := Empty.(title := t)])
  {
    TranslatedOwn(k, t, h);
    LeafSplit(Translated(k, t), h);
    SetTitle(t, h);
  }

  /** The older SetSchemaProp on `title` sets the title. */
  lemma SetTitle(t: string, h: Host)
    ensures LegacyAnnotate.SetProp(Empty, "title", t, h.env) == Empty.(title := t)
  {
    Annotate.TitleFormFields();
  }

  /**
   * An array whose item carries a translation, and which has none itself: `ret[lang]` is nil
   * when the item's variant is written into it, and the split panics.
   */
  lemma ItemOnlyTranslationPanics(k: string, t: string, h: Host)
    requires Enumerates(h) && '.' in k
    ensures SplitI18n(Empty.(items := [Translated(k, t)]), h) == None
  {
    var s := Empty.(items := [Translated(k, t)]);
    TranslatedOwn(k, t, h);
    LeafSplit(Translated(k, t), h);
    OrderOfEmpty(h, s.extraProps);
    assert Own(s, h) == map[];
    assert ItemSplits(s, h)[0] == SplitI18n(Translated(k, t), h);
    assert AllSplit(ItemSplits(s, h));
    assert Cut(k).1 in Results(ItemSplits(s, h))[0];
    SplitDefined(s, h);
    assert !Fitting(Own(s, h), Results(ItemSplits(s, h)), 0);
  }
}
