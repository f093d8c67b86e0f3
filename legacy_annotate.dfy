/**
 * The annotation handlers of schema/schema.go, the older copy of those in schema/extenssion.go,
 * and completeFromComment, which parses a head comment with the older parser and applies every
 * section to the schema at once.
 *
 * The registry, and the `hidden`, `x-enum`, `description` and `param` handlers, are the same
 * code in both files and are reused from Annotate. What differs:
 *   - SetSchemaProp reads `nullable` with strconv.ParseBool, and an empty value is true;
 *   - DefaultOptionHandler leaves the schema alone for a keyword with neither value nor option;
 *   - the `order` handler writes into an Extensions map that nothing allocates, and so can
 *     only run on a schema that already has one.
 */
module LegacyAnnotate {
  import opened Wrappers
  import opened Text
  import opened Values
  import opened Scanner
  import opened Spec
  import Annotate
  import LegacyScanner

  /** strconv.ParseBool: the six spellings of true, the six of false, anything else an error. */
  function ParseBool(v: string): (r: Option<bool>)
    ensures r.Some? ==> 1 <= |v| <= 5 && (r.value <==> v[0] in {'1', 't', 'T'})
  {
    if v in {"1", "t", "T", "TRUE", "true", "True"} then Some(true)
    else if v in {"0", "f", "F", "FALSE", "false", "False"} then Some(false)
    else None
  }

  /** The `nullable` case: "" is true; otherwise ParseBool, with an error read as false. */
  function NullableOf(v: string): bool
  {
    if v == "" then true else ParseBool(v) == Some(true)
  }

  /** The older SetSchemaProp: the newer one's switch, but for the `nullable` key. */
  function SetProp(s: Schema, k: string, v: string, env: Env): (r: Schema)
    ensures Annotate.SameShape(s, r, env) && r.extensions == s.extensions
    ensures r.items == s.items || Annotate.FieldOf(k) == Annotate.Items
    ensures r.extraProps == s.extraProps || r.extraProps.Keys == s.extraProps.Keys + {k}
  {
    if Annotate.FieldOf(k) == Annotate.Nullable then s.(nullable := NullableOf(v))
    else Annotate.SetProp(s, k, v, env)
  }

  /**
   * `nullable` is true for "" and for the six spellings ParseBool reads as true, where the newer
   * code accepts only "true" and "1"; the two agree on every other key.
   */
  lemma NullableRule(s: Schema, v: string, env: Env)
    ensures SetProp(s, "nullable", v, env).nullable <==> v in {"", "1", "t", "T", "TRUE", "true", "True"}
    ensures SetProp(s, "nullable", v, env) == s.(nullable := SetProp(s, "nullable", v, env).nullable)
    ensures Annotate.SetProp(s, "nullable", v, env).nullable <==> v in {"true", "1"}
    ensures SetProp(s, "nullable", v, env) == Annotate.SetProp(s, "nullable", v, env)
            <==> v !in {"", "t", "T", "TRUE", "True"}
  {
  }

  /** Every key but `nullable` is set as the newer code sets it. */
  lemma SameOffNullable(s: Schema, k: string, v: string, env: Env)
    requires k != "nullable"
    ensures SetProp(s, k, v, env) == Annotate.SetProp(s, k, v, env)
  {
  }

  /** The older SetSchemaProp on a schema reference; the keys it shares with the newer code go there. */
  method SetSchemaProp(ref: Annotate.SchemaRef, k: string, v: string, env: Env)
    modifies ref
    ensures ref.value == SetProp(old(ref.value), k, v, env)
  {
    if Annotate.FieldOf(k) == Annotate.Nullable {
      if v == "" {
        ref.value := ref.value.(nullable := true);
      } else {
        var b := ParseBool(v);
        ref.value := ref.value.(nullable := b == Some(true));
      }
    } else {
      Annotate.SetSchemaProp(ref, k, v, env);
    }
  }

  /**
   * The older DefaultOptionHandler: a value sets `kind`, options alone are stored as a map under
   * `kind`, and a keyword with neither changes nothing.
   */
  function HandleDefault(s: Schema, kind: string, sec: Section, env: Env): (r: Schema)
    ensures Annotate.SameShape(s, r, env) && r.extensions == s.extensions
  {
    if sec.value != [] then SetProp(s, kind, sec.value, env)
    else if |sec.options| == 0 then s
    else s.(extraProps := s.extraProps[kind := Fields(Annotate.OptionFields(sec.options))])
  }

  /**
   * A bare keyword leaves the schema as it was, where the newer handler sets it to "true"; with
   * options and no value both store the same map.
   */
  lemma DefaultCases(s: Schema, kind: string, sec: Section, env: Env)
    ensures sec.value == [] && sec.options == [] ==>
              HandleDefault(s, kind, sec, env) == s
              && Annotate.HandleDefault(s, kind, sec, env) == Annotate.SetProp(s, kind, "true", env)
    ensures sec.value == [] && sec.options != [] ==>
              HandleDefault(s, kind, sec, env) == Annotate.HandleDefault(s, kind, sec, env)
    ensures sec.value != [] ==> HandleDefault(s, kind, sec, env) == SetProp(s, kind, sec.value, env)
  {
  }

  method DefaultOptionHandler(ref: Annotate.SchemaRef, kind: string, sec: Section, env: Env)
    modifies ref
    ensures ref.value == HandleDefault(old(ref.value), kind, sec, env)
  {
    if sec.value != "" {
      SetSchemaProp(ref, kind, sec.value, env);
      return;
    }
    if |sec.options| == 0 {
      return;
    }
    var kvs: map<string, Value> := map[];
    for i := 0 to |sec.options|
      invariant kvs == Annotate.OptionFields(sec.options[..i])
    {
      assert sec.options[..i + 1][..i] == sec.options[..i];
      kvs := kvs[sec.options[i].name := Coerce(sec.options[i].value)];
    }
    assert sec.options[..|sec.options|] == sec.options;
    ref.value := ref.value.(extraProps := ref.value.extraProps[kind := Fields(kvs)]);
  }

  /** The older TitleOptionHandler: the older default handler for `title`, then `form` if titled. */
  function HandleTitle(s: Schema, sec: Section, env: Env): (r: Schema)
    ensures Annotate.SameShape(s, r, env) && r.extensions == s.extensions
  {
    var t := HandleDefault(s, "title", sec, env);
    if t.title != "" then SetProp(t, "form", "true", env) else t
  }

  /**
   * The title is the section's value, or stays as it was when there is none; `form` is set
   * exactly when the title ends up non-empty, so a bare `@title` on an untitled schema changes
   * nothing.
   */
  lemma TitleForm(s: Schema, sec: Section, env: Env)
    ensures var r := HandleTitle(s, sec, env);
            && r.title == (if sec.value != [] then sec.value else s.title)
            && (r.title != [] ==> "form" in r.extraProps && r.extraProps["form"] == Yaml("true"))
            && (r.title == [] ==> r == HandleDefault(s, "title", sec, env))
    ensures sec.value == [] && sec.options == [] && s.title == [] ==> HandleTitle(s, sec, env) == s
  {
    Annotate.TitleFormFields();
  }

  method TitleOptionHandler(ref: Annotate.SchemaRef, sec: Section, env: Env)
    modifies ref
    ensures ref.value == HandleTitle(old(ref.value), sec, env)
  {
    DefaultOptionHandler(ref, "title", sec, env);
    if ref.value.title != "" {
      SetSchemaProp(ref, "form", "true", env);
    }
  }

  /** The older SchemaOptionHandler: every option is an older SetSchemaProp, in order. */
  function HandleSchema(s: Schema, opts: seq<SectionOption>, env: Env): (r: Schema)
    ensures Annotate.SameShape(s, r, env) && r.extensions == s.extensions
  {
    if opts == [] then s
    else
      var t := HandleSchema(s, opts[..|opts| - 1], env);
      var r := SetProp(t, opts[|opts| - 1].name, opts[|opts| - 1].value, env);
      Annotate.SameShapeTrans(s, t, r, env);
      r
  }

  /** Without a `nullable` option the older `@schema` handler does what the newer one does. */
  lemma {:induction false} HandleSchemaAgrees(s: Schema, opts: seq<SectionOption>, env: Env)
    requires forall k | 0 <= k < |opts| :: opts[k].name != "nullable"
    ensures HandleSchema(s, opts, env) == Annotate.HandleSchema(s, opts, env)
  {
    if opts != [] {
      HandleSchemaAgrees(s, opts[..|opts| - 1], env);
      SameOffNullable(HandleSchema(s, opts[..|opts| - 1], env), opts[|opts| - 1].name, opts[|opts| - 1].value, env);
    }
  }

  method SchemaOptionHandler(ref: Annotate.SchemaRef, sec: Section, env: Env)
    modifies ref
    ensures ref.value == HandleSchema(old(ref.value), sec.options, env)
  {
    for i := 0 to |sec.options|
      invariant ref.value == HandleSchema(old(ref.value), sec.options[..i], env)
    {
      assert sec.options[..i + 1][..i] == sec.options[..i];
      SetSchemaProp(ref, sec.options[i].name, sec.options[i].value, env);
    }
    assert sec.options[..|sec.options|] == sec.options;
  }

  // ----- completeFromComment -----

  /** Whether the section is an `@order` one, whose handler needs an Extensions map. */
  predicate IsOrder(sec: Section)
  {
    TrimPrefix(sec.name, "@") == "order"
  }

  /** One section applied by the older dispatcher: the handler of its keyword, else the older default one. */
  function Apply(s: Schema, sec: Section, env: Env): (r: Schema)
    requires IsOrder(sec) ==> s.extensions.Some?
    ensures Annotate.SameShape(s, r, env)
    ensures s.extensions.Some? ==> r.extensions.Some?
    ensures !IsOrder(sec) ==> r.extensions == s.extensions
  {
    var key := TrimPrefix(sec.name, "@");
    if key in Annotate.Registry then
      match Annotate.Registry[key]
      case SchemaHandler => HandleSchema(s, sec.options, env)
      case ParamHandler => s
      case HiddenHandler => Annotate.HandleHidden(s, sec)
      case OrderHandler => Annotate.HandleOrderAsWritten(s, sec)
      case TitleHandler => HandleTitle(s, sec, env)
      case XEnumHandler => Annotate.HandleXEnum(s, sec)
      case DescriptionHandler => s.(description := sec.raw)
    else HandleDefault(s, key, sec, env)
  }

  /** Some section of the list is an `@order` one. */
  predicate HasOrder(secs: seq<Section>)
  {
    exists k | 0 <= k < |secs| :: IsOrder(secs[k])
  }

  /** The sections applied in order; an `@order` section needs the Extensions map to exist already. */
  function ApplyAll(s: Schema, secs: seq<Section>, env: Env): (r: Schema)
    requires HasOrder(secs) ==> s.extensions.Some?
    ensures Annotate.SameShape(s, r, env)
    ensures s.extensions.Some? ==> r.extensions.Some?
    ensures !HasOrder(secs) ==> r.extensions == s.extensions
  {
    if secs == [] then s
    else
      var init := secs[..|secs| - 1];
      assert HasOrder(init) ==> HasOrder(secs) by {
        if HasOrder(init) {
          var k :| 0 <= k < |init| && IsOrder(init[k]);
          assert secs[k] == init[k];
        }
      }
      var t := ApplyAll(s, init, env);
      assert IsOrder(secs[|secs| - 1]) ==> HasOrder(secs);
      assert !HasOrder(secs) ==> !HasOrder(init) by {
        if HasOrder(init) {
          var k :| 0 <= k < |init| && IsOrder(init[k]);
          assert secs[k] == init[k];
        }
      }
      var r := Apply(t, secs[|secs| - 1], env);
      Annotate.SameShapeTrans(s, t, r, env);
      r
  }

  /**
   * A comment of lone keywords (`# @flag` lines) changes nothing: the older parser drops them,
   * and the older default handler would leave the schema alone even if it did not.
   */
  lemma {:induction false} BareKeywordsChangeNothing(s: Schema, secs: seq<Section>, env: Env)
    requires forall k | 0 <= k < |secs| :: secs[k].value == [] && secs[k].options == []
                                           && TrimPrefix(secs[k].name, "@") !in Annotate.Registry
    ensures ApplyAll(s, secs, env) == s
  {
    if secs != [] {
      BareKeywordsChangeNothing(s, secs[..|secs| - 1], env);
    }
  }

  /** The older completeFromComment on a schema reference. */
  method CompleteFromComment(ref: Annotate.SchemaRef, comment: string, env: Env)
    requires LegacyScanner.CommentSections(comment).Some?
    requires HasOrder(LegacyScanner.CommentSections(comment).value) ==> ref.value.extensions.Some?
    modifies ref
    ensures ref.value == ApplyAll(old(ref.value), LegacyScanner.CommentSections(comment).value, env)
  {
    var secs := LegacyScanner.ParseComment(comment);
    ghost var s := ref.value;
    for i := 0 to |secs|
      invariant HasOrder(secs[..i]) ==> s.extensions.Some?
      invariant ref.value == ApplyAll(s, secs[..i], env)
    {
      assert secs[..i + 1][..i] == secs[..i];
      assert IsOrder(secs[i]) ==> s.extensions.Some? by {
        if IsOrder(secs[i]) {
          assert HasOrder(secs);
        }
      }
      assert HasOrder(secs[..i + 1]) ==> HasOrder(secs) by {
        if HasOrder(secs[..i + 1]) {
          var k :| 0 <= k < i + 1 && IsOrder(secs[..i + 1][k]);
          assert secs[k] == secs[..i + 1][k];
        }
      }
      ApplySection(ref, secs[i], env);
    }
    assert secs[..|secs|] == secs;
  }

  /** One section of completeFromComment, dispatched to its handler. */
  method ApplySection(ref: Annotate.SchemaRef, sec: Section, env: Env)
    requires IsOrder(sec) ==> ref.value.extensions.Some?
    modifies ref
    ensures ref.value == Apply(old(ref.value), sec, env)
  {
    var key := TrimPrefix(sec.name, "@");
    if key in Annotate.Registry {
      match Annotate.Registry[key]
      case SchemaHandler => SchemaOptionHandler(ref, sec, env);
      case ParamHandler =>
      case HiddenHandler => Annotate.HiddenOptionHandler(ref, sec);
      case OrderHandler =>
        ref.value := ref.value.(extensions := Some(ref.value.extensions.value["x-order" := Coerce(sec.value)]));
      case TitleHandler => TitleOptionHandler(ref, sec, env);
      case XEnumHandler => Annotate.XEnumOptionHandler(ref, sec);
      case DescriptionHandler => ref.value := ref.value.(description := sec.raw);
    } else {
      DefaultOptionHandler(ref, key, sec, env);
    }
  }
}
