/**
 * The Schema record of schema/spec.go, the ordered property list, and the choices the
 * either-shaped wrappers (SchemaOrArray, SchemaOrBool, SchemaOrStringArray) make when they are
 * marshalled to JSON or unmarshalled from it.
 *
 * Byte-level JSON is foreign: a marshal result is a `Json` naming what encoding/json is asked to
 * encode, and decoding goes through the decoders of an `Env`, which a caller supplies.
 */
module Spec {
  import opened Wrappers
  import opened Values

  /** One named property; SchemaProperties keeps them in a slice, so their order is kept. */
  datatype Property = Property(name: string, schema: Schema)

  /** A SchemaProperties slice: nil, or a list (possibly empty) of properties. */
  datatype SchemaProperties = NoProps | Props(list: seq<Property>)

  /**
   * The fields of Schema that the annotation handlers, the document mapper and the i18n engine
   * read or write. `extensions` is None
   * for a map that was never allocated; `comment` is the head comment of the YAML key, which is
   * not a JSON field.
   */
  datatype Schema = Schema(
    schemaUri: string,
    description: string,
    types: seq<string>,
    nullable: bool,
    format: string,
    title: string,
    defaultValue: Value,
    maximum: Option<string>,
    minimum: Option<string>,
    maxLength: Option<int>,
    minLength: Option<int>,
    pattern: string,
    enumValues: seq<Value>,
    required: seq<string>,
    properties: SchemaProperties,
    items: seq<Schema>,
    example: Value,
    extraProps: map<string, Value>,
    extensions: Option<map<string, Value>>,
    comment: string)

  /** Go's zero Schema{}. */
  const Empty: Schema :=
    Schema("", "", [], false, "", "", Nil, None, None, None, None, "", [], [], NoProps, [], Nil, map[], None, "")

  /**
   * The foreign decoders: json.Unmarshal into a Schema, into a []Schema, into a []string, into an
   * `any` (only whether it succeeds), and strconv.ParseFloat with 32 bits (only whether it
   * accepts the text). None, or false, is a decoding error.
   */
  datatype Env = Env(
    decodeSchema: string -> Option<Schema>,
    decodeSchemas: string -> Option<seq<Schema>>,
    decodeStrings: string -> Option<seq<string>>,
    isJson: string -> bool,
    isFloat32: string -> bool)

  /** The properties as a list; nil reads as the empty list. */
  function PropList(s: Schema): seq<Property>
  {
    if s.properties.Props? then s.properties.list else []
  }

  /** No node of `s` carries a comment. */
  predicate CommentFree(s: Schema)
    decreases s
  {
    && s.comment == []
    && (forall k | 0 <= k < |s.items| :: CommentFree(s.items[k]))
    && (s.properties.Props? ==> forall k | 0 <= k < |s.properties.list| :: CommentFree(s.properties.list[k].schema))
  }

  /** Comment is not a JSON field, so nothing a decoder returns carries one. */
  ghost predicate Sound(env: Env)
  {
    && (forall t :: env.decodeSchema(t).Some? ==> CommentFree(env.decodeSchema(t).value))
    && (forall t :: env.decodeSchemas(t).Some? ==>
          forall k | 0 <= k < |env.decodeSchemas(t).value| :: CommentFree(env.decodeSchemas(t).value[k]))
  }

  function Names(ps: seq<Property>): (r: seq<string>)
    ensures |r| == |ps| && forall k | 0 <= k < |ps| :: r[k] == ps[k].name
  {
    if ps == [] then [] else Names(ps[..|ps| - 1]) + [ps[|ps| - 1].name]
  }

  /** What encoding/json is asked to write. */
  datatype Json =
    | Null
    | Bool(b: bool)
    | OfSchema(schema: Schema)
    | OfStrings(strings: seq<string>)
    | Diverges   // the marshaller calls itself on the same value and never returns

  /** The first byte of JSON input, or 0 when the input has at most one byte. */
  function FirstByte(data: string): char
  {
    if |data| > 1 then data[0] else '\0'
  }

  /** The insignificant whitespace of JSON (section 2 of RFC 8259), which encoding/json skips. */
  predicate JsonSpace(c: char)
  {
    c == ' ' || c == '\t' || c == '\n' || c == '\r'
  }

  /** `data` without the JSON whitespace it opens with. */
  function TrimLeadingSpace(data: string): (r: string)
    ensures |r| <= |data| && r == data[|data| - |r|..]
    ensures forall k | 0 <= k < |data| - |r| :: JsonSpace(data[k])
    ensures r == [] || !JsonSpace(r[0])
  {
    if data != [] && JsonSpace(data[0]) then TrimLeadingSpace(data[1..]) else data
  }

  /** `data` without the JSON whitespace it closes with. */
  function TrimTrailingSpace(data: string): (r: string)
    ensures |r| <= |data| && r == data[..|r|]
    ensures forall k | |r| <= k < |data| :: JsonSpace(data[k])
    ensures r == [] || !JsonSpace(r[|r| - 1])
  {
    if data != [] && JsonSpace(data[|data| - 1]) then TrimTrailingSpace(data[..|data| - 1]) else data
  }

  /**
   * What json.Unmarshal hands to an UnmarshalJSON method: the bytes of the value alone, without
   * the whitespace around it.
   */
  function JsonValueBytes(data: string): (r: string)
    ensures r == [] || (!JsonSpace(r[0]) && !JsonSpace(r[|r| - 1]))
  {
    TrimTrailingSpace(TrimLeadingSpace(data))
  }

  /** Whitespace in front of a value does not change the bytes UnmarshalJSON sees. */
  lemma {:induction false} LeadingSpaceSkipped(p: string, data: string)
    requires forall k | 0 <= k < |p| :: JsonSpace(p[k])
    ensures JsonValueBytes(p + data) == JsonValueBytes(data)
  {
    LeadingSpaceDropped(p, data);
  }

  lemma {:induction false} LeadingSpaceDropped(p: string, data: string)
    requires forall k | 0 <= k < |p| :: JsonSpace(p[k])
    ensures TrimLeadingSpace(p + data) == TrimLeadingSpace(data)
    decreases |p|
  {
    if p != [] {
      var q := p + data;
      assert q[0] == p[0] && q[1..] == p[1..] + data;
      assert TrimLeadingSpace(q) == TrimLeadingSpace(q[1..]);
      forall k | 0 <= k < |p[1..]|
        ensures JsonSpace(p[1..][k])
      {
        assert p[1..][k] == p[k + 1];
      }
      LeadingSpaceDropped(p[1..], data);
    } else {
      assert p + data == data;
    }
  }

  // ----- Schema -----

  /**
   * One of the three documents Schema.MarshalJSON encodes before it concatenates them: the
   * fixed fields (the inline SchemaProps), or one of the two maps, `null` for a nil one.
   */
  datatype Part = FixedFields(fields: Schema) | MapPart(entries: map<string, Value>) | NullPart

  /** A map's own document: `null` when it was never allocated. */
  function MapJson(m: Option<map<string, Value>>): Part
  {
    match m
    case None => NullPart
    case Some(entries) => MapPart(entries)
  }

  /**
   * Schema.MarshalJSON: the fixed fields, then Extensions, then ExtraProps, in this order. The
   * two maps are tagged `json:"-"`, so the fixed part is the schema without them; the head
   * comment is not a JSON field either.
   */
  function SchemaJson(s: Schema): (r: seq<Part>)
    ensures |r| == 3 && r[0].FixedFields? && r[2].MapPart?
    ensures r[0].fields.extraProps == map[] && r[0].fields.extensions.None? && r[0].fields.comment == []
  {
    [FixedFields(s.(extraProps := map[], extensions := None, comment := [])), MapJson(s.extensions), MapPart(s.extraProps)]
  }

  /**
   * The extension fields come after the fixed fields and before the extra properties, and each
   * of the three parts depends on its own fields only: two schemas are written alike exactly
   * when they differ at most in their head comments.
   */
  lemma SchemaJsonParts(a: Schema, b: Schema)
    ensures SchemaJson(a)[1] == MapJson(a.extensions) && SchemaJson(a)[2] == MapPart(a.extraProps)
    ensures SchemaJson(a)[0] == SchemaJson(b)[0]
            <==> a.(extraProps := b.extraProps, extensions := b.extensions, comment := b.comment) == b
    ensures SchemaJson(a) == SchemaJson(b) <==> a.(comment := b.comment) == b
  {
    var fa, fb := SchemaJson(a)[0].fields, SchemaJson(b)[0].fields;
    if fa == fb {
      assert a.(extraProps := b.extraProps, extensions := b.extensions, comment := b.comment)
          == fb.(extraProps := b.extraProps, extensions := b.extensions, comment := b.comment);
    }
    if SchemaJson(a) == SchemaJson(b) {
      assert MapJson(a.extensions) == MapJson(b.extensions);
      assert a.extensions == b.extensions;
    }
  }

  // ----- SchemaOrArray -----

  /**
   * SchemaOrArray.MarshalJSON: a non-empty list is written as its first schema; an empty list
   * is handed back to json.Marshal, which calls this same method again.
   */
  function ItemsJson(s: seq<Schema>): (r: Json)
    ensures r == Diverges <==> s == []
  {
    if |s| > 0 then OfSchema(s[0]) else Diverges
  }

  /** Only the first schema is written: lists that agree on it cannot be told apart. */
  lemma ItemsJsonKeepsOnlyFirst(a: seq<Schema>, b: seq<Schema>)
    requires a != [] && b != [] && a[0] == b[0]
    ensures ItemsJson(a) == ItemsJson(b) == ItemsJson(a[..1])
  {
  }

  /**
   * SchemaOrArray.UnmarshalJSON into a receiver holding `s`: an object becomes a one-element
   * list, an array becomes the list; anything else, and any input of at most one byte, leaves
   * the receiver as it was. A decoding error leaves it as it was too and is returned.
   */
  function UnmarshalItems(s: seq<Schema>, data: string, env: Env): (r: Result<seq<Schema>>)
    ensures FirstByte(data) !in {'{', '['} ==> r == Ok(s)
    ensures r.Ok? && FirstByte(data) == '{' ==> |r.value| == 1 && Some(r.value[0]) == env.decodeSchema(data)
    ensures r.Ok? && FirstByte(data) == '[' ==> Some(r.value) == env.decodeSchemas(data)
    ensures r.Err? <==> (FirstByte(data) == '{' && env.decodeSchema(data).None?)
                        || (FirstByte(data) == '[' && env.decodeSchemas(data).None?)
  {
    var first := FirstByte(data);
    if first == '{' then
      match env.decodeSchema(data)
      case None => Err("decode schema")
      case Some(sch) => Ok([sch])
    else if first == '[' then
      match env.decodeSchemas(data)
      case None => Err("decode schemas")
      case Some(list) => Ok(list)
    else Ok(s)
  }

  // ----- SchemaOrBool -----

  datatype SchemaOrBool = SchemaOrBool(allows: bool, schema: Option<Schema>)

  /** SchemaOrBool.MarshalJSON: `true` when allowed, else the schema if there is one, else `false`. */
  function BoolJson(s: SchemaOrBool): (r: Json)
    ensures r == Bool(true) <==> s.allows
    ensures r == Bool(false) <==> !s.allows && s.schema.None?
    ensures r.OfSchema? <==> !s.allows && s.schema.Some?
  {
    if s.allows then Bool(true)
    else if s.schema.Some? then OfSchema(s.schema.value)
    else Bool(false)
  }

  /**
   * SchemaOrBool.UnmarshalJSON: `true` and `false` set only `allows`; anything else is decoded
   * as a schema, which is stored without touching `allows`.
   */
  function UnmarshalBool(s: SchemaOrBool, data: string, env: Env): (r: Result<SchemaOrBool>)
    ensures data in {"true", "false"} ==> r == Ok(s.(allows := data == "true"))
    ensures data !in {"true", "false"} ==>
              r == (match env.decodeSchema(data)
                    case None => Err("decode schema")
                    case Some(sch) => Ok(s.(schema := Some(sch))))
  {
    if data == "true" then Ok(s.(allows := true))
    else if data == "false" then Ok(s.(allows := false))
    else
      match env.decodeSchema(data)
      case None => Err("decode schema")
      case Some(sch) => Ok(s.(schema := Some(sch)))
  }

  /** A boolean without a schema comes back from its own JSON text. */
  lemma BoolRoundTrip(b: bool, t: SchemaOrBool, env: Env)
    requires t.schema.None?
    ensures var text := if BoolJson(SchemaOrBool(b, None)) == Bool(true) then "true" else "false";
            UnmarshalBool(t, text, env) == Ok(SchemaOrBool(b, None))
  {
  }

  /**
   * Unmarshalling `false` into a receiver that holds a schema keeps the schema, so the value
   * marshals as that schema and not as `false`.
   */
  lemma FalseKeepsSchema(s: SchemaOrBool, env: Env)
    requires s.schema.Some?
    ensures UnmarshalBool(s, "false", env).Ok?
    ensures BoolJson(UnmarshalBool(s, "false", env).value) == OfSchema(s.schema.value)
  {
  }

  // ----- SchemaOrStringArray -----

  datatype SchemaOrStringArray = SchemaOrStringArray(schema: Option<Schema>, property: seq<string>)

  /** SchemaOrStringArray.MarshalJSON: a non-empty string list first, then the schema, else `null`. */
  function StringArrayJson(s: SchemaOrStringArray): (r: Json)
    ensures r == Null <==> s.property == [] && s.schema.None?
    ensures r.OfStrings? <==> s.property != []
    ensures r.OfSchema? <==> s.property == [] && s.schema.Some?
  {
    if |s.property| > 0 then OfStrings(s.property)
    else if s.schema.Some? then OfSchema(s.schema.value)
    else Null
  }

  /**
   * SchemaOrStringArray.UnmarshalJSON: the receiver is replaced by a fresh value holding only
   * what was decoded, an object as the schema and an array as the strings; other input resets
   * it. A decoding error leaves the receiver as it was.
   */
  function UnmarshalStringArray(s: SchemaOrStringArray, data: string, env: Env): (r: Result<SchemaOrStringArray>)
    ensures FirstByte(data) !in {'{', '['} ==> r == Ok(SchemaOrStringArray(None, []))
    ensures r.Ok? && FirstByte(data) == '{' ==> r.value.schema.Some? && r.value.property == [] && r.value.schema == env.decodeSchema(data)
    ensures r.Ok? && FirstByte(data) == '[' ==> r.value.schema.None? && Some(r.value.property) == env.decodeStrings(data)
    ensures r.Err? <==> (FirstByte(data) == '{' && env.decodeSchema(data).None?)
                        || (FirstByte(data) == '[' && env.decodeStrings(data).None?)
    ensures r.Ok? ==> r.value.schema.None? || r.value.property == []
  {
    var first := FirstByte(data);
    if first == '{' then
      match env.decodeSchema(data)
      case None => Err("decode schema")
      case Some(sch) => Ok(SchemaOrStringArray(Some(sch), []))
    else if first == '[' then
      match env.decodeStrings(data)
      case None => Err("decode strings")
      case Some(list) => Ok(SchemaOrStringArray(None, list))
    else Ok(SchemaOrStringArray(None, []))
  }

  /**
   * On input that is neither an object nor an array, a SchemaOrArray keeps its old list while a
   * SchemaOrStringArray is reset.
   */
  lemma UnmarshalOtherInput(items: seq<Schema>, s: SchemaOrStringArray, env: Env)
    ensures UnmarshalItems(items, "null", env) == Ok(items)
    ensures UnmarshalStringArray(s, "null", env) == Ok(SchemaOrStringArray(None, []))
  {
  }

  /** Whatever a string array decodes to comes back out when it is marshalled. */
  lemma StringArrayRoundTrip(s: SchemaOrStringArray, data: string, env: Env)
    requires FirstByte(data) == '[' && env.decodeStrings(data).Some? && env.decodeStrings(data).value != []
    ensures UnmarshalStringArray(s, data, env).Ok?
    ensures StringArrayJson(UnmarshalStringArray(s, data, env).value) == OfStrings(env.decodeStrings(data).value)
  {
  }

  // ----- SchemaProperties -----

  /** What SchemaProperties.MarshalJSON writes: literal text, an encoded name, an encoded schema. */
  datatype Chunk = Text(text: string) | Key(name: string) | Val(schema: Schema)

  /** The chunks written for entry `i` of a property list. */
  function Entry(i: nat, p: Property): seq<Chunk>
  {
    (if i != 0 then [Text(",")] else []) + [Key(p.name), Text(": "), Val(p.schema)]
  }

  function Entries(ps: seq<Property>): (r: seq<Chunk>)
  {
    if ps == [] then [] else Entries(ps[..|ps| - 1]) + Entry(|ps| - 1, ps[|ps| - 1])
  }

  /** SchemaProperties.MarshalJSON: `null` for a nil list, else `{`, the entries in order, `}`. */
  function PropertiesJson(ps: SchemaProperties): seq<Chunk>
  {
    match ps
    case NoProps => [Text("null")]
    case Props(list) => [Text("{")] + Entries(list) + [Text("}")]
  }

  /** The names written, in the order written. */
  function KeysOf(cs: seq<Chunk>): seq<string>
  {
    if cs == [] then [] else KeysOf(cs[..|cs| - 1]) + (if cs[|cs| - 1].Key? then [cs[|cs| - 1].name] else [])
  }

  /** The separators written. */
  function Commas(cs: seq<Chunk>): nat
  {
    if cs == [] then 0 else Commas(cs[..|cs| - 1]) + (if cs[|cs| - 1] == Text(",") then 1 else 0)
  }

  lemma {:induction false} KeysOfAppend(a: seq<Chunk>, b: seq<Chunk>)
    ensures KeysOf(a + b) == KeysOf(a) + KeysOf(b)
    ensures Commas(a + b) == Commas(a) + Commas(b)
    decreases |b|
  {
    if b == [] {
      assert a + b == a;
    } else {
      KeysOfAppend(a, b[..|b| - 1]);
      assert (a + b)[..|a + b| - 1] == a + b[..|b| - 1];
    }
  }

  lemma KeysOfOne(c: Chunk)
    ensures KeysOf([c]) == if c.Key? then [c.name] else []
    ensures Commas([c]) == if c == Text(",") then 1 else 0
  {
    assert [c][..0] == [];
  }

  lemma EntryKeys(i: nat, p: Property)
    ensures KeysOf(Entry(i, p)) == [p.name]
    ensures Commas(Entry(i, p)) == if i != 0 then 1 else 0
  {
    var k, t, v := [Key(p.name)], [Text(": ")], [Val(p.schema)];
    KeysOfOne(Key(p.name));
    KeysOfOne(Text(": "));
    KeysOfOne(Val(p.schema));
    KeysOfAppend(k, t);
    KeysOfAppend(k + t, v);
    assert k + t + v == [Key(p.name), Text(": "), Val(p.schema)];
    if i != 0 {
      KeysOfOne(Text(","));
      KeysOfAppend([Text(",")], k + t + v);
    } else {
      assert Entry(i, p) == k + t + v;
    }
  }

  lemma {:induction false} EntriesKeys(ps: seq<Property>)
    ensures KeysOf(Entries(ps)) == Names(ps)
    ensures Commas(Entries(ps)) == if ps == [] then 0 else |ps| - 1
    decreases |ps|
  {
    if ps != [] {
      var init := ps[..|ps| - 1];
      EntriesKeys(init);
      KeysOfAppend(Entries(init), Entry(|ps| - 1, ps[|ps| - 1]));
      EntryKeys(|ps| - 1, ps[|ps| - 1]);
      assert Names(ps) == Names(init) + [ps[|ps| - 1].name];
    }
  }

  /**
   * The names of a non-nil property list are written once each, in slice order, with one
   * separator between neighbours and none elsewhere.
   */
  lemma PropertiesJsonKeepsOrder(ps: seq<Property>)
    ensures KeysOf(PropertiesJson(Props(ps))) == Names(ps)
    ensures Commas(PropertiesJson(Props(ps))) == if ps == [] then 0 else |ps| - 1
  {
    EntriesKeys(ps);
    Braced(Entries(ps));
  }

  /** The braces around a list of entries add no name and no separator. */
  lemma Braced(body: seq<Chunk>)
    ensures KeysOf([Text("{")] + body + [Text("}")]) == KeysOf(body)
    ensures Commas([Text("{")] + body + [Text("}")]) == Commas(body)
  {
    var open, close := [Text("{")], [Text("}")];
    KeysOfOne(Text("{"));
    KeysOfOne(Text("}"));
    KeysOfAppend(open, body);
    KeysOfAppend(open + body, close);
    assert KeysOf(open) == [] && KeysOf(close) == [];
    assert KeysOf(open + body + close) == KeysOf(body);
  }

  /** SchemaProperties.MarshalJSON, writing to a buffer in a loop. */
  method MarshalProperties(ps: SchemaProperties) returns (buf: seq<Chunk>)
    ensures buf == PropertiesJson(ps)
  {
    if ps.NoProps? {
      return [Text("null")];
    }
    var list := ps.list;
    buf := [Text("{")];
    for i := 0 to |list|
      invariant buf == [Text("{")] + Entries(list[..i])
    {
      if i != 0 {
        buf := buf + [Text(",")];
      }
      buf := buf + [Key(list[i].name), Text(": "), Val(list[i].schema)];
      assert list[..i + 1][..i] == list[..i];
    }
    assert list[..|list|] == list;
    buf := buf + [Text("}")];
  }
}
