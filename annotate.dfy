/**
 * The annotation handlers of schema/extenssion.go: the keyword registry, the dispatcher that
 * applies one parsed section to a schema, `SetSchemaProp` with its synonyms and its `type`
 * rule, and the handlers for `schema`, `param`, `hidden`, `order`, `title`, `x-enum`,
 * `description` and every other keyword.
 *
 * The handlers update a `*Schema` in place; here each is a method on a `SchemaRef` proved to
 * leave behind the value a specification function computes, and the properties the handlers
 * promise are lemmas about those functions.
 */
module Annotate {
  import opened Wrappers
  import opened Text
  import opened Values
  import opened Scanner
  import opened Spec

  /** A `*Schema`: the handlers update the schema it points to. */
  class SchemaRef {
    var value: Schema

    constructor (s: Schema)
      ensures value == s
    {
      value := s;
    }
  }

  /**
   * SplitKeyLocale: a key with a '.' after its first byte splits at the first '.' into the key
   * and the locale; any other key has no locale.
   */
  function SplitKeyLocale(key: string): (r: (string, string))
    ensures Index(key, '.') > 0 ==> key == r.0 + "." + r.1 && r.0 != [] && '.' !in r.0
    ensures Index(key, '.') <= 0 ==> r == (key, "")
  {
    var i := Index(key, '.');
    if i > 0 then (key[..i], key[i + 1..]) else (key, "")
  }

  /** A dotted key is split back into the key and the locale it was built from. */
  lemma SplitJoinLocale(base: string, locale: string)
    requires base != [] && '.' !in base
    ensures SplitKeyLocale(base + "." + locale) == (base, locale)
  {
    var key := base + "." + locale;
    assert key[..|base|] == base && key[|base|] == '.';
    assert key[|base| + 1..] == locale;
  }

  // ----- SetSchemaProp -----

  /** The field SetSchemaProp assigns for a key; `Extra` stands for ExtraProps[key]. */
  datatype Field =
    | Minimum | MinLength | MaxLength | Maximum | Format | Pattern | Required | Default
    | Nullable | Example | Title | Enum | Description | Type | Items | Extra

  /** The switch of SetSchemaProp, synonyms folded. */
  function FieldOf(k: string): Field
  {
    if k == "min" || k == "minmum" then Minimum
    else if k == "minLength" || k == "minLen" || k == "minlen" then MinLength
    else if k == "maxLength" || k == "maxLen" || k == "maxlen" then MaxLength
    else if k == "max" || k == "maxmum" then Maximum
    else if k == "format" then Format
    else if k == "pattern" then Pattern
    else if k == "required" then Required
    else if k == "default" then Default
    else if k == "nullable" then Nullable
    else if k == "example" then Example
    else if k == "title" then Title
    else if k == "enum" then Enum
    else if k == "description" then Description
    else if k == "type" then Type
    else if k == "items" then Items
    else Extra
  }

  /** The keys SetSchemaProp stores in a field of its own; every other key lands in ExtraProps. */
  const FieldKeys: set<string> := {
    "min", "minmum", "minLength", "minLen", "minlen", "maxLength", "maxLen", "maxlen", "max", "maxmum",
    "format", "pattern", "required", "default", "nullable", "example", "title", "enum", "description",
    "type", "items"}

  lemma FieldKeysAreFields(k: string)
    ensures k in FieldKeys <==> FieldOf(k) != Extra
  {
  }

  /**
   * What a handler never changes: the properties and the comment; the items stay, or are
   * replaced by decoded schemas, which carry no comment when the decoders are sound.
   */
  ghost predicate SameShape(s: Schema, r: Schema, env: Env)
  {
    && r.properties == s.properties && r.comment == s.comment
    && (r.items == s.items || (Sound(env) ==> forall k | 0 <= k < |r.items| :: CommentFree(r.items[k])))
  }

  lemma SameShapeTrans(s: Schema, t: Schema, r: Schema, env: Env)
    requires SameShape(s, t, env) && SameShape(t, r, env)
    ensures SameShape(s, r, env)
  {
  }

  /** anyToFloat: the text, kept symbolically, when ParseFloat with 32 bits accepts it. */
  function AnyToFloat(v: string, env: Env): (r: Option<string>)
    ensures r.Some? <==> env.isFloat32(v)
    ensures r.Some? ==> r.value == v
  {
    if env.isFloat32(v) then Some(v) else None
  }

  /** The `type` rule: a type already listed is kept where it is; "null" goes last, any other type first. */
  function AddType(types: seq<string>, v: string): (r: seq<string>)
    ensures v in r && forall t | t in types :: t in r
    ensures forall t | t in r :: t in types || t == v
  {
    if v in types then types else if v != "null" then [v] + types else types + [v]
  }

  /** The enum values: each comma-separated piece coerced as YAML, in order. */
  function CoerceAll(parts: seq<string>): (r: seq<Value>)
    ensures |r| == |parts| && forall k | 0 <= k < |parts| :: r[k] == Coerce(parts[k])
  {
    if parts == [] then [] else CoerceAll(parts[..|parts| - 1]) + [Coerce(parts[|parts| - 1])]
  }

  /**
   * The `items` key: json.Unmarshal into an empty SchemaOrArray, whose UnmarshalJSON sees the
   * value without the whitespace around it; an error leaves it empty.
   */
  function DecodeItems(v: string, env: Env): (r: seq<Schema>)
    ensures Sound(env) ==> forall k | 0 <= k < |r| :: CommentFree(r[k])
    ensures r != [] ==> FirstByte(JsonValueBytes(v)) in {'{', '['}
    ensures var d := JsonValueBytes(v);
      FirstByte(d) == '{' ==> r == (if env.decodeSchema(d).Some? then [env.decodeSchema(d).value] else [])
    ensures var d := JsonValueBytes(v);
      FirstByte(d) == '[' ==> r == (if env.decodeSchemas(d).Some? then env.decodeSchemas(d).value else [])
  {
    match UnmarshalItems([], JsonValueBytes(v), env)
    case Ok(list) => list
    case Err(_) => []
  }

  /** Whitespace in front of the value, as a quoted annotation value may hold, is skipped. */
  lemma DecodeItemsSkipsSpace(p: string, v: string, env: Env)
    requires forall k | 0 <= k < |p| :: JsonSpace(p[k])
    ensures DecodeItems(p + v, env) == DecodeItems(v, env)
  {
    LeadingSpaceSkipped(p, v);
  }

  /** SetSchemaProp(schema, k, v) for the string values every caller passes. */
  function SetProp(s: Schema, k: string, v: string, env: Env): (r: Schema)
    ensures SameShape(s, r, env) && r.extensions == s.extensions
    ensures r.items == s.items || FieldOf(k) == Items
    ensures r.extraProps == s.extraProps || FieldOf(k) == Extra
  {
    match FieldOf(k)
    case Minimum => s.(minimum := AnyToFloat(v, env))
    case MinLength => s.(minLength := ParseInt(v))
    case MaxLength => s.(maxLength := ParseInt(v))
    case Maximum => s.(maximum := AnyToFloat(v, env))
    case Format => s.(format := v)
    case Pattern => s.(pattern := v)
    case Required => s.(required := Split(v, ','))
    case Default => s.(defaultValue := Coerce(v))
    case Nullable => s.(nullable := AnyToBool(v))
    case Example => s.(example := Str(v))
    case Title => s.(title := v)
    case Enum => s.(enumValues := CoerceAll(Split(v, ',')))
    case Description => s.(description := v)
    case Type => s.(types := AddType(s.types, v))
    case Items => s.(items := DecodeItems(v, env))
    case Extra => s.(extraProps := s.extraProps[k := FormatExtraValue(v, env.isJson)])
  }

  /**
   * SetSchemaProp: one field is assigned, chosen by the switch on the key (FieldOf holds its
   * case labels); the `enum` case builds its list in a loop.
   */
  method SetSchemaProp(ref: SchemaRef, k: string, v: string, env: Env)
    modifies ref
    ensures ref.value == SetProp(old(ref.value), k, v, env)
  {
    var s := ref.value;
    match FieldOf(k) {
    case Minimum =>
      s := s.(minimum := AnyToFloat(v, env));
    case MinLength =>
      s := s.(minLength := ParseInt(v));
    case MaxLength =>
      s := s.(maxLength := ParseInt(v));
    case Maximum =>
      s := s.(maximum := AnyToFloat(v, env));
    case Format =>
      s := s.(format := v);
    case Pattern =>
      s := s.(pattern := v);
    case Required =>
      s := s.(required := Split(v, ','));
    case Default =>
      s := s.(defaultValue := Coerce(v));
    case Nullable =>
      s := s.(nullable := AnyToBool(v));
    case Example =>
      s := s.(example := Str(v));
    case Title =>
      s := s.(title := v);
    case Enum =>
      var parts := Split(v, ',');
      var enums: seq<Value> := [];
      for i := 0 to |parts|
        invariant enums == CoerceAll(parts[..i])
      {
        assert parts[..i + 1][..i] == parts[..i];
        enums := enums + [Coerce(parts[i])];
      }
      assert parts[..|parts|] == parts;
      s := s.(enumValues := enums);
    case Description =>
      s := s.(description := v);
    case Type =>
      if v !in s.types {
        if v != "null" {
          s := s.(types := [v] + s.types);
        } else {
          s := s.(types := s.types + [v]);
        }
      }
    case Items =>
      s := s.(items := DecodeItems(v, env));
    case Extra =>
      s := s.(extraProps := s.extraProps[k := FormatExtraValue(v, env.isJson)]);
    }
    ref.value := s;
  }

  predicate NoDuplicates(xs: seq<string>)
  {
    forall i, j | 0 <= i < j < |xs| :: xs[i] != xs[j]
  }

  /**
   * The `type` rule: a listed type changes nothing; "null" is appended and any other type
   * prepended, the others keeping their order; a list without duplicates stays without.
   */
  lemma TypeRule(s: Schema, v: string, env: Env)
    ensures var r := SetProp(s, "type", v, env).types;
            && (v in s.types ==> r == s.types)
            && (v !in s.types && v == "null" ==> r[..|s.types|] == s.types && r[|s.types|] == v && |r| == |s.types| + 1)
            && (v !in s.types && v != "null" ==> r[0] == v && r[1..] == s.types)
            && (NoDuplicates(s.types) ==> NoDuplicates(r))
  {
    var r := SetProp(s, "type", v, env).types;
    if v !in s.types && v != "null" {
      assert r == [v] + s.types;
      assert r[1..] == s.types;
      if NoDuplicates(s.types) {
        forall i, j | 0 <= i < j < |r| ensures r[i] != r[j] {
          if i == 0 {
            assert r[j] == s.types[j - 1];
          } else {
            assert r[i] == s.types[i - 1] && r[j] == s.types[j - 1];
          }
        }
      }
    } else if v !in s.types {
      assert r == s.types + [v];
      if NoDuplicates(s.types) {
        forall i, j | 0 <= i < j < |r| ensures r[i] != r[j] {
          if j == |s.types| {
            assert r[i] == s.types[i];
          }
        }
      }
    }
  }

  /**
   * `required` holds the comma-separated pieces, one more than there are commas, which join
   * back to the text; no other field changes.
   */
  lemma RequiredSplit(s: Schema, v: string, env: Env)
    ensures var r := SetProp(s, "required", v, env);
            && |r.required| == Count(v, ',') + 1
            && Join(r.required, ',') == v
            && (forall k | 0 <= k < |r.required| :: ',' !in r.required[k])
            && r == s.(required := r.required)
  {
    assert FieldOf("required") == Required;
    assert SetProp(s, "required", v, env) == s.(required := Split(v, ','));
    JoinSplit(v, ',');
  }

  /** `enum` holds one coerced value per comma-separated piece, in order. */
  lemma EnumSplit(s: Schema, v: string, env: Env)
    ensures var r := SetProp(s, "enum", v, env);
            && |r.enumValues| == Count(v, ',') + 1
            && (forall k | 0 <= k < |r.enumValues| :: r.enumValues[k] == Coerce(Split(v, ',')[k]))
            && r == s.(enumValues := r.enumValues)
  {
    assert FieldOf("enum") == Enum;
  }

  /** The length limits hold a 64-bit decimal exactly, and nothing for malformed text. */
  lemma LengthLimits(s: Schema, v: string, n: int, env: Env)
    requires MinInt64 <= n <= MaxInt64
    ensures ParseInt(v).None? ==> SetProp(s, "minLength", v, env).minLength.None?
    ensures ParseInt(v).None? ==> SetProp(s, "maxLength", v, env).maxLength.None?
    ensures SetProp(s, "minLen", FormatInt(n), env).minLength == Some(n)
    ensures SetProp(s, "maxlen", FormatInt(n), env).maxLength == Some(n)
  {
    LimitFields();
    ParseFormatInt(n);
  }

  /** The field of each key of the limits. */
  lemma LimitFields()
    ensures FieldOf("min") == FieldOf("minmum") == Minimum
    ensures FieldOf("max") == FieldOf("maxmum") == Maximum
    ensures FieldOf("minLength") == FieldOf("minLen") == FieldOf("minlen") == MinLength
    ensures FieldOf("maxLength") == FieldOf("maxLen") == FieldOf("maxlen") == MaxLength
  {
  }

  /** Synonyms set the same field. */
  lemma Synonyms(s: Schema, v: string, env: Env)
    ensures SetProp(s, "min", v, env) == SetProp(s, "minmum", v, env)
    ensures SetProp(s, "max", v, env) == SetProp(s, "maxmum", v, env)
    ensures SetProp(s, "minLength", v, env) == SetProp(s, "minLen", v, env) == SetProp(s, "minlen", v, env)
    ensures SetProp(s, "maxLength", v, env) == SetProp(s, "maxLen", v, env) == SetProp(s, "maxlen", v, env)
  {
    LimitFields();
  }

  /**
   * A key of no field of its own changes ExtraProps[k] and nothing else; a field key never
   * touches ExtraProps.
   */
  lemma ExtraPropsOnlyForOtherKeys(s: Schema, k: string, v: string, env: Env)
    ensures k !in FieldKeys ==> SetProp(s, k, v, env) == s.(extraProps := s.extraProps[k := FormatExtraValue(v, env.isJson)])
    ensures k in FieldKeys ==> SetProp(s, k, v, env).extraProps == s.extraProps
  {
    FieldKeysAreFields(k);
    if FieldOf(k) == Extra {
      assert SetProp(s, k, v, env) == s.(extraProps := s.extraProps[k := FormatExtraValue(v, env.isJson)]);
    }
  }

  /** Setting the same key twice is setting it once. */
  lemma SetPropIdempotent(s: Schema, k: string, v: string, env: Env)
    ensures SetProp(SetProp(s, k, v, env), k, v, env) == SetProp(s, k, v, env)
  {
    var t := SetProp(s, k, v, env);
    match FieldOf(k)
    case Type =>
      assert v in t.types;
    case _ =>
  }

  /** For every key but `type`, a later value replaces an earlier one. */
  lemma SetPropLastWins(s: Schema, k: string, v1: string, v2: string, env: Env)
    requires FieldOf(k) != Type
    ensures SetProp(SetProp(s, k, v1, env), k, v2, env) == SetProp(s, k, v2, env)
  {
    match FieldOf(k)
    case Extra =>
      assert s.extraProps[k := FormatExtraValue(v1, env.isJson)][k := FormatExtraValue(v2, env.isJson)]
          == s.extraProps[k := FormatExtraValue(v2, env.isJson)];
    case _ =>
  }

  // ----- the handlers -----

  /** The name → coerced value map of a section's options; a later option overwrites an earlier one. */
  function OptionFields(opts: seq<SectionOption>): (m: map<string, Value>)
    ensures m.Keys == set k | 0 <= k < |opts| :: opts[k].name
  {
    if opts == [] then map[]
    else
      var init := opts[..|opts| - 1];
      var m := OptionFields(init);
      assert forall k | 0 <= k < |init| :: init[k] == opts[k];
      m[opts[|opts| - 1].name := Coerce(opts[|opts| - 1].value)]
  }

  /** An option no later option shares a name with keeps its value. */
  lemma {:induction false} OptionFieldsLastWins(opts: seq<SectionOption>, k: nat)
    requires k < |opts| && forall j | k < j < |opts| :: opts[j].name != opts[k].name
    ensures OptionFields(opts)[opts[k].name] == Coerce(opts[k].value)
  {
    if k < |opts| - 1 {
      var init := opts[..|opts| - 1];
      assert init[k] == opts[k];
      OptionFieldsLastWins(init, k);
    }
  }

  /**
   * DefaultOptionHandler: a bare keyword sets `kind` to "true", a value sets `kind` to it and
   * ignores the options, and options alone are stored as a map under `kind`.
   */
  function HandleDefault(s: Schema, kind: string, sec: Section, env: Env): (r: Schema)
    ensures SameShape(s, r, env)
    ensures sec.value == [] && sec.options != [] ==>
              r == s.(extraProps := s.extraProps[kind := Fields(OptionFields(sec.options))])
  {
    if sec.value == [] && |sec.options| == 0 then SetProp(s, kind, "true", env)
    else if sec.value != [] then SetProp(s, kind, sec.value, env)
    else s.(extraProps := s.extraProps[kind := Fields(OptionFields(sec.options))])
  }

  /** The three cases of the default handler, each one SetSchemaProp or one ExtraProps entry. */
  lemma DefaultCases(s: Schema, kind: string, sec: Section, env: Env)
    ensures sec.value == [] && sec.options == [] ==> HandleDefault(s, kind, sec, env) == SetProp(s, kind, "true", env)
    ensures sec.value != [] ==> HandleDefault(s, kind, sec, env) == SetProp(s, kind, sec.value, env)
    ensures HandleDefault(s, kind, sec, env).properties == s.properties
  {
  }

  method DefaultOptionHandler(ref: SchemaRef, kind: string, sec: Section, env: Env)
    modifies ref
    ensures ref.value == HandleDefault(old(ref.value), kind, sec, env)
  {
    if sec.value == "" && |sec.options| == 0 {
      SetSchemaProp(ref, kind, "true", env);
      return;
    }
    if sec.value != "" {
      SetSchemaProp(ref, kind, sec.value, env);
      return;
    }
    var kvs: map<string, Value> := map[];
    for i := 0 to |sec.options|
      invariant kvs == OptionFields(sec.options[..i])
    {
      assert sec.options[..i + 1][..i] == sec.options[..i];
      kvs := kvs[sec.options[i].name := Coerce(sec.options[i].value)];
    }
    assert sec.options[..|sec.options|] == sec.options;
    ref.value := ref.value.(extraProps := ref.value.extraProps[kind := Fields(kvs)]);
  }

  /** The value of the last `operator` option, or "" when there is none. */
  function HiddenOperator(opts: seq<SectionOption>): string
  {
    if opts == [] then ""
    else if opts[|opts| - 1].name == "operator" then opts[|opts| - 1].value
    else HiddenOperator(opts[..|opts| - 1])
  }

  /** The options other than `operator`, in order. */
  function HiddenOptions(opts: seq<SectionOption>): (r: seq<SectionOption>)
    ensures |r| <= |opts|
    ensures forall k | 0 <= k < |r| :: r[k].name != "operator"
  {
    if opts == [] then []
    else
      var init := HiddenOptions(opts[..|opts| - 1]);
      if opts[|opts| - 1].name == "operator" then init else init + [opts[|opts| - 1]]
  }

  /** The conditions built from options, in order. */
  function Conditions(opts: seq<SectionOption>): (r: seq<Cond>)
    ensures |r| == |opts| && forall k | 0 <= k < |opts| :: r[k] == Cond(opts[k].name, Coerce(opts[k].value))
  {
    if opts == [] then [] else Conditions(opts[..|opts| - 1]) + [Cond(opts[|opts| - 1].name, Coerce(opts[|opts| - 1].value))]
  }

  /** HiddenOptionHandler. */
  function HandleHidden(s: Schema, sec: Section): (r: Schema)
    ensures r == s.(extraProps := r.extraProps)
    ensures r.extraProps.Keys <= s.extraProps.Keys + {"hidden"}
  {
    if sec.value != [] then s.(extraProps := s.extraProps["hidden" := Coerce(sec.value)])
    else
      var options := HiddenOptions(sec.options);
      var operator := HiddenOperator(sec.options);
      if |options| == 0 then s
      else if |options| == 1 then
        var o := options[0];
        if HasSuffix(o.name, "!") then
          s.(extraProps := s.extraProps["hidden" := Hidden("not", [Cond(TrimSuffix(o.name, "!"), Coerce(o.value))])])
        else s.(extraProps := s.extraProps["hidden" := Condition(Cond(o.name, Coerce(o.value)))])
      else
        s.(extraProps := s.extraProps["hidden" := Hidden(if operator == "" then "or" else operator, Conditions(options))])
  }

  /** The `operator` options are filtered out, the others keep their order. */
  lemma {:induction false} HiddenOptionsAppend(a: seq<SectionOption>, b: seq<SectionOption>)
    ensures HiddenOptions(a + b) == HiddenOptions(a) + HiddenOptions(b)
    decreases |b|
  {
    if b == [] {
      assert a + b == a;
    } else {
      HiddenOptionsAppend(a, b[..|b| - 1]);
      assert (a + b)[..|a + b| - 1] == a + b[..|b| - 1];
    }
  }

  /** An option survives exactly when it is not an `operator` option. */
  lemma {:induction false} HiddenOptionsMembers(a: seq<SectionOption>)
    ensures forall o :: o in HiddenOptions(a) <==> o in a && o.name != "operator"
    decreases |a|
  {
    if a != [] {
      HiddenOptionsMembers(a[..|a| - 1]);
      assert a == a[..|a| - 1] + [a[|a| - 1]];
    }
  }

  /** The last `operator` option wins. */
  lemma {:induction false} HiddenOperatorLastWins(opts: seq<SectionOption>, k: nat)
    requires k < |opts| && opts[k].name == "operator"
    requires forall j | k < j < |opts| :: opts[j].name != "operator"
    ensures HiddenOperator(opts) == opts[k].value
  {
    if k < |opts| - 1 {
      var init := opts[..|opts| - 1];
      assert init[k] == opts[k];
      HiddenOperatorLastWins(init, k);
    }
  }

  /**
   * The `hidden` rule: a value is stored as a scalar; without other options than `operator`
   * nothing is written; one option gives one condition, negated when its name ends in '!';
   * several give all conditions, in order, under the operator (or "or"). Only the `hidden`
   * entry of ExtraProps is written; every other entry keeps its value.
   */
  lemma HiddenCases(s: Schema, sec: Section)
    ensures sec.value != [] ==> HandleHidden(s, sec).extraProps == s.extraProps["hidden" := Coerce(sec.value)]
    ensures sec.value == [] && HiddenOptions(sec.options) == [] ==> HandleHidden(s, sec) == s
    ensures sec.value == [] && |HiddenOptions(sec.options)| == 1 ==>
              var o := HiddenOptions(sec.options)[0];
              var e := HandleHidden(s, sec).extraProps;
              && o.name != "operator"
              && (HasSuffix(o.name, "!") ==>
                    e == s.extraProps["hidden" := Hidden("not", [Cond(o.name[..|o.name| - 1], Coerce(o.value))])])
              && (!HasSuffix(o.name, "!") ==> e == s.extraProps["hidden" := Condition(Cond(o.name, Coerce(o.value)))])
    ensures sec.value == [] && |HiddenOptions(sec.options)| >= 2 ==>
              var opts := HiddenOptions(sec.options);
              var h := HandleHidden(s, sec).extraProps["hidden"];
              var op := HiddenOperator(sec.options);
              && HandleHidden(s, sec).extraProps == s.extraProps["hidden" := h]
              && h.Hidden? && h.operator == (if op == [] then "or" else op)
              && |h.conds| == |opts|
              && forall k | 0 <= k < |h.conds| :: h.conds[k] == Cond(opts[k].name, Coerce(opts[k].value))
  {
    HiddenOptionsMembers(sec.options);
    if |HiddenOptions(sec.options)| == 1 {
      assert HiddenOptions(sec.options)[0] in HiddenOptions(sec.options);
    }
  }

  method HiddenOptionHandler(ref: SchemaRef, sec: Section)
    modifies ref
    ensures ref.value == HandleHidden(old(ref.value), sec)
  {
    if sec.value != "" {
      ref.value := ref.value.(extraProps := ref.value.extraProps["hidden" := Coerce(sec.value)]);
      return;
    }
    var options: seq<SectionOption> := [];
    var operatorOption := SectionOption("", "");
    for i := 0 to |sec.options|
      invariant options == HiddenOptions(sec.options[..i])
      invariant operatorOption.value == HiddenOperator(sec.options[..i])
    {
      assert sec.options[..i + 1][..i] == sec.options[..i];
      if sec.options[i].name == "operator" {
        operatorOption := sec.options[i];
      } else {
        options := options + [sec.options[i]];
      }
    }
    assert sec.options[..|sec.options|] == sec.options;
    var operator := operatorOption.value;
    if |options| == 0 {
      return;
    }
    if |options| == 1 {
      var o := options[0];
      if HasSuffix(o.name, "!") {
        ref.value := ref.value.(extraProps := ref.value.extraProps[
          "hidden" := Hidden("not", [Cond(TrimSuffix(o.name, "!"), Coerce(o.value))])]);
        return;
      }
      ref.value := ref.value.(extraProps := ref.value.extraProps["hidden" := Condition(Cond(o.name, Coerce(o.value)))]);
      return;
    }
    if operator == "" {
      operator := "or";
    }
    var conds: seq<Cond> := [];
    for i := 0 to |options|
      invariant conds == Conditions(options[..i])
    {
      assert options[..i + 1][..i] == options[..i];
      conds := conds + [Cond(options[i].name, Coerce(options[i].value))];
    }
    assert options[..|options|] == options;
    ref.value := ref.value.(extraProps := ref.value.extraProps["hidden" := Hidden(operator, conds)]);
  }

  /**
   * OrderOptionHandler as written: it stores into Extensions, which nothing allocates, so it
   * can only run on a schema whose Extensions map exists (see README, Findings).
   */
  function HandleOrderAsWritten(s: Schema, sec: Section): (r: Schema)
    requires s.extensions.Some?
    ensures r.extensions == Some(s.extensions.value["x-order" := Coerce(sec.value)])
    ensures r == s.(extensions := r.extensions)
  {
    s.(extensions := Some(s.extensions.value["x-order" := Coerce(sec.value)]))
  }

  /** OrderOptionHandler with the Extensions map allocated when missing. */
  function HandleOrder(s: Schema, sec: Section): (r: Schema)
    ensures r.extensions.Some? && "x-order" in r.extensions.value
    ensures r.extensions.value["x-order"] == Coerce(sec.value)
    ensures r == s.(extensions := r.extensions)
  {
    var ext := if s.extensions.Some? then s.extensions.value else map[];
    s.(extensions := Some(ext["x-order" := Coerce(sec.value)]))
  }

  /** Where the source does not fail, the corrected handler does what it does. */
  lemma OrderAgrees(s: Schema, sec: Section)
    requires s.extensions.Some?
    ensures HandleOrder(s, sec) == HandleOrderAsWritten(s, sec)
  {
  }

  method OrderOptionHandler(ref: SchemaRef, sec: Section)
    modifies ref
    ensures ref.value == HandleOrder(old(ref.value), sec)
  {
    if ref.value.extensions.None? {
      ref.value := ref.value.(extensions := Some(map[]));
    }
    ref.value := ref.value.(extensions := Some(ref.value.extensions.value["x-order" := Coerce(sec.value)]));
  }

  /** TitleOptionHandler: the default handler for `title`, then `form` when the title is not empty. */
  function HandleTitle(s: Schema, sec: Section, env: Env): (r: Schema)
    ensures SameShape(s, r, env)
  {
    var t := HandleDefault(s, "title", sec, env);
    if t.title != "" then SetProp(t, "form", "true", env) else t
  }

  /**
   * `form` is set exactly when the title ends up non-empty; a bare `@title` sets the title to
   * "true" and so sets `form` too.
   */
  lemma TitleForm(s: Schema, sec: Section, env: Env)
    ensures var r := HandleTitle(s, sec, env);
            && (r.title != [] ==> "form" in r.extraProps && r.extraProps["form"] == Yaml("true"))
            && (r.title == [] ==> r == HandleDefault(s, "title", sec, env))
            && r.title == HandleDefault(s, "title", sec, env).title
    ensures sec.value == [] && sec.options == [] ==>
              HandleTitle(s, sec, env).title == "true" && HandleTitle(s, sec, env).extraProps["form"] == Yaml("true")
  {
    TitleFormFields();
  }

  /** `title` is a field of its own; `form` is not, and lands in ExtraProps. */
  lemma TitleFormFields()
    ensures FieldOf("title") == Title && FieldOf("form") == Extra
  {
  }

  method TitleOptionHandler(ref: SchemaRef, sec: Section, env: Env)
    modifies ref
    ensures ref.value == HandleTitle(old(ref.value), sec, env)
  {
    DefaultOptionHandler(ref, "title", sec, env);
    if ref.value.title != "" {
      SetSchemaProp(ref, "form", "true", env);
    }
  }

  /** The x-enum entries: each option's value as the text and its coerced name as the value. */
  function XEnumEntries(opts: seq<SectionOption>): (r: seq<Value>)
    ensures |r| == |opts|
    ensures forall k | 0 <= k < |opts| :: r[k] == Fields(map["text" := Str(opts[k].value), "value" := Coerce(opts[k].name)])
  {
    if opts == [] then []
    else XEnumEntries(opts[..|opts| - 1]) + [Fields(map["text" := Str(opts[|opts| - 1].value), "value" := Coerce(opts[|opts| - 1].name)])]
  }

  /** XEnumOptionHandler. */
  function HandleXEnum(s: Schema, sec: Section): (r: Schema)
    ensures r == s.(extraProps := r.extraProps) && r.extraProps.Keys == s.extraProps.Keys + {"x-enum", "render"}
    ensures r.extraProps["x-enum"] == List(XEnumEntries(sec.options))
    ensures "render" in s.extraProps ==> r.extraProps["render"] == s.extraProps["render"]
    ensures "render" !in s.extraProps ==> r.extraProps["render"] == Str("radio")
  {
    var extra := if "render" in s.extraProps then s.extraProps else s.extraProps["render" := Str("radio")];
    s.(extraProps := extra["x-enum" := List(XEnumEntries(sec.options))])
  }

  method XEnumOptionHandler(ref: SchemaRef, sec: Section)
    modifies ref
    ensures ref.value == HandleXEnum(old(ref.value), sec)
  {
    var xenum: seq<Value> := [];
    for i := 0 to |sec.options|
      invariant xenum == XEnumEntries(sec.options[..i])
    {
      assert sec.options[..i + 1][..i] == sec.options[..i];
      xenum := xenum + [Fields(map["text" := Str(sec.options[i].value), "value" := Coerce(sec.options[i].name)])];
    }
    assert sec.options[..|sec.options|] == sec.options;
    if "render" !in ref.value.extraProps {
      ref.value := ref.value.(extraProps := ref.value.extraProps["render" := Str("radio")]);
    }
    ref.value := ref.value.(extraProps := ref.value.extraProps["x-enum" := List(xenum)]);
  }

  /** DescriptionOptionHandler: the description is the section's raw text. */
  function HandleDescription(s: Schema, sec: Section): (r: Schema)
    ensures r.description == sec.raw && r == s.(description := r.description)
  {
    s.(description := sec.raw)
  }

  /** SchemaOptionHandler: every option is a SetSchemaProp, in order. */
  function HandleSchema(s: Schema, opts: seq<SectionOption>, env: Env): (r: Schema)
    ensures SameShape(s, r, env) && r.extensions == s.extensions
  {
    if opts == [] then s
    else
      var t := HandleSchema(s, opts[..|opts| - 1], env);
      var r := SetProp(t, opts[|opts| - 1].name, opts[|opts| - 1].value, env);
      SameShapeTrans(s, t, r, env);
      r
  }

  /** Options apply one after the other: a list is its prefix, then the rest. */
  lemma {:induction false} HandleSchemaAppend(s: Schema, a: seq<SectionOption>, b: seq<SectionOption>, env: Env)
    ensures HandleSchema(s, a + b, env) == HandleSchema(HandleSchema(s, a, env), b, env)
    decreases |b|
  {
    if b == [] {
      assert a + b == a;
    } else {
      HandleSchemaAppend(s, a, b[..|b| - 1], env);
      assert (a + b)[..|a + b| - 1] == a + b[..|b| - 1];
    }
  }

  method SchemaOptionHandler(ref: SchemaRef, sec: Section, env: Env)
    modifies ref
    ensures ref.value == HandleSchema(old(ref.value), sec.options, env)
  {
    for i := 0 to |sec.options|
      invariant ref.value == HandleSchema(old(ref.value), sec.options[..i], env)
    {
      assert sec.options[..i + 1][..i] == sec.options[..i];
      SetSchemaProp(ref, sec.options[i].name, sec.options[i].value, env);
    }
    assert sec.options[..|sec.options|] == sec.options;
  }

  // ----- dispatch -----

  datatype Handler =
    | SchemaHandler
    | ParamHandler
    | HiddenHandler
    | OrderHandler
    | TitleHandler
    | XEnumHandler
    | DescriptionHandler

  /** ExtraPropsHandlers: the keywords with a handler of their own. */
  const Registry: map<string, Handler> := map[
    "schema" := SchemaHandler,
    "param" := ParamHandler,
    "hidden" := HiddenHandler,
    "order" := OrderHandler,
    "title" := TitleHandler,
    "x-enum" := XEnumHandler,
    "description" := DescriptionHandler]

  function Run(h: Handler, s: Schema, sec: Section, env: Env): (r: Schema)
    ensures SameShape(s, r, env)
    ensures h == ParamHandler ==> r == s
    ensures h != SchemaHandler && h != TitleHandler ==> r.items == s.items && r.properties == s.properties
  {
    match h
    case SchemaHandler => HandleSchema(s, sec.options, env)
    case ParamHandler => s
    case HiddenHandler => HandleHidden(s, sec)
    case OrderHandler => HandleOrder(s, sec)
    case TitleHandler => HandleTitle(s, sec, env)
    case XEnumHandler => HandleXEnum(s, sec)
    case DescriptionHandler => HandleDescription(s, sec)
  }

  /** CompleteFromCommentSection: the handler of the keyword without its '@', else the default one. */
  function Apply(s: Schema, sec: Section, env: Env): (r: Schema)
    ensures SameShape(s, r, env)
  {
    var key := TrimPrefix(sec.name, "@");
    if key in Registry then Run(Registry[key], s, sec, env) else HandleDefault(s, key, sec, env)
  }

  /** The sections of a comment, applied in order. */
  function ApplyAll(s: Schema, secs: seq<Section>, env: Env): (r: Schema)
    ensures SameShape(s, r, env)
  {
    if secs == [] then s
    else
      var t := ApplyAll(s, secs[..|secs| - 1], env);
      var r := Apply(t, secs[|secs| - 1], env);
      SameShapeTrans(s, t, r, env);
      r
  }

  lemma {:induction false} ApplyAllAppend(s: Schema, a: seq<Section>, b: seq<Section>, env: Env)
    ensures ApplyAll(s, a + b, env) == ApplyAll(ApplyAll(s, a, env), b, env)
    decreases |b|
  {
    if b == [] {
      assert a + b == a;
    } else {
      ApplyAllAppend(s, a, b[..|b| - 1], env);
      assert (a + b)[..|a + b| - 1] == a + b[..|b| - 1];
    }
  }

  /**
   * A keyword without a handler of its own goes to the default handler under its name without
   * the '@'; `param` changes nothing.
   */
  lemma Dispatch(s: Schema, key: string, sec: Section, env: Env)
    requires sec.name == "@" + key
    ensures key !in Registry ==> Apply(s, sec, env) == HandleDefault(s, key, sec, env)
    ensures key == "param" ==> Apply(s, sec, env) == s
    ensures key == "description" ==> Apply(s, sec, env) == s.(description := sec.raw)
  {
    assert HasPrefix(sec.name, "@");
    assert sec.name[1..] == key;
  }

  /**
   * CompleteFromCommentSection: the section's handler runs on the schema; the error it
   * returns is always nil.
   */
  method CompleteFromCommentSection(ref: SchemaRef, sec: Section, env: Env) returns (err: Option<string>)
    modifies ref
    ensures ref.value == Apply(old(ref.value), sec, env) && err == None
  {
    var key := TrimPrefix(sec.name, "@");
    if key in Registry {
      match Registry[key]
      case SchemaHandler => SchemaOptionHandler(ref, sec, env);
      case ParamHandler =>
      case HiddenHandler => HiddenOptionHandler(ref, sec);
      case OrderHandler => OrderOptionHandler(ref, sec);
      case TitleHandler => TitleOptionHandler(ref, sec, env);
      case XEnumHandler => XEnumOptionHandler(ref, sec);
      case DescriptionHandler => ref.value := ref.value.(description := sec.raw);
    } else {
      DefaultOptionHandler(ref, key, sec, env);
    }
    return None;
  }
}
