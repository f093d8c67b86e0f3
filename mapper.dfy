/**
 * The document mapper of schema/generate.go: a YAML node tree becomes a Schema. A mapping is an
 * object with one property per key/value pair, a sequence is an array with one item per element,
 * a scalar gets the type its tag names and its text as default, and the head comment of each key
 * is kept on the schema of its value for the annotation pass.
 *
 * YAML decoding is foreign: GenerateSchema takes the outcome of yaml.Unmarshal as a parameter.
 */
module Mapper {
  import opened Wrappers
  import opened Values
  import opened Spec
  import opened Scanner
  import opened Annotate
  import opened Seqs

  /** yaml.Kind; `NoKind` is the zero Kind an empty document decodes to. */
  datatype Kind = NoKind | DocumentNode | SequenceNode | MappingNode | ScalarNode | AliasNode

  /** The fields of a yaml.Node that nodeSchema reads. */
  datatype Node = Node(kind: Kind, tag: string, value: string, headComment: string, content: seq<Node>)

  /**
   * The trees nodeSchema maps without indexing past the end of `content`: a document has a first
   * child, a mapping holds key/value pairs, and every node it descends into is such a tree too.
   */
  predicate WellFormed(n: Node)
    decreases n
  {
    match n.kind
    case DocumentNode => |n.content| > 0 && WellFormed(n.content[0])
    case MappingNode => |n.content| % 2 == 0 && forall k | 0 <= k < |n.content| :: k % 2 == 1 ==> WellFormed(n.content[k])
    case SequenceNode => forall k | 0 <= k < |n.content| :: WellFormed(n.content[k])
    case _ => true
  }

  const SchemaUri: string := "http://json-schema.org/schema#"

  /** The type a scalar's tag gives; any tag the switch does not list gives "object". */
  function TagType(tag: string): (r: string)
    ensures r == "string" <==> tag == "!!str" || tag == "!binary" || tag == "!!timestamp"
  {
    if tag == "!!str" || tag == "!binary" then "string"
    else if tag == "!!int" then "integer"
    else if tag == "!!float" then "number"
    else if tag == "!!bool" then "boolean"
    else if tag == "!!timestamp" then "string"
    else if tag == "!!null" then "null"
    else "object"
  }

  /** The scalar case: the tag's type, the timestamp format, and the text as default. */
  function ScalarSchema(tag: string, value: string): (r: Schema)
    ensures r == Empty.(types := r.types, format := r.format, defaultValue := r.defaultValue)
    ensures r.types == [TagType(tag)] && (r.format != "" <==> tag == "!!timestamp")
    ensures r.defaultValue == Nil <==> value == ""
    ensures value != "" ==> r.defaultValue == (if TagType(tag) == "string" then Str(value) else Yaml(value))
  {
    var t := TagType(tag);
    Empty.(types := [t],
           format := if tag == "!!timestamp" then "data-time" else "",
           defaultValue := if value == "" then Nil else if "string" in [t] then Str(value) else Coerce(value))
  }

  /** nodeSchema(node, keycomment). */
  function Mapped(n: Node, keyComment: string): (r: Schema)
    requires WellFormed(n)
    ensures n.kind != DocumentNode ==> r.comment == keyComment && r.schemaUri == ""
    ensures n.kind == DocumentNode ==> r.schemaUri == SchemaUri
    ensures n.kind == MappingNode ==> r.types == ["object"] && r.properties.Props?
    ensures n.kind == SequenceNode ==> r.types == ["array"] && |r.items| == |n.content|
    ensures n.kind == ScalarNode ==> r.types == [TagType(n.tag)]
    decreases n
  {
    match n.kind
    case DocumentNode => Mapped(n.content[0], "").(schemaUri := SchemaUri)
    case MappingNode =>
      var pairs := |n.content| / 2;
      Empty.(types := ["object"],
             properties := Props(seq(pairs, k requires 0 <= k < pairs =>
                             Property(n.content[2 * k].value, Mapped(n.content[2 * k + 1], n.content[2 * k].headComment)))),
             comment := keyComment)
    case SequenceNode =>
      Empty.(types := ["array"],
             items := seq(|n.content|, k requires 0 <= k < |n.content| => Mapped(n.content[k], "")),
             comment := keyComment)
    case ScalarNode => ScalarSchema(n.tag, n.value).(comment := keyComment)
    case _ => Empty.(comment := keyComment)
  }

  // ----- what the mapping promises -----

  /**
   * A document is its first child mapped with an empty comment, stamped with the JSON-Schema
   * URI.
   */
  lemma DocumentStamped(n: Node, keyComment: string)
    requires WellFormed(n) && n.kind == DocumentNode
    ensures Mapped(n, keyComment).schemaUri == SchemaUri
    ensures Mapped(n, keyComment) == Mapped(n.content[0], "").(schemaUri := SchemaUri)
  {
  }

  /**
   * A mapping is an object whose properties, never nil, are one entry per key/value pair in
   * source order, named by the key and built from the value with the key's head comment.
   */
  lemma MappingEntries(n: Node, keyComment: string)
    requires WellFormed(n) && n.kind == MappingNode
    ensures var r := Mapped(n, keyComment);
            && r.types == ["object"] && r.properties.Props? && 2 * |r.properties.list| == |n.content|
            && forall k | 0 <= k < |r.properties.list| ::
                 && r.properties.list[k].name == n.content[2 * k].value
                 && r.properties.list[k].schema == Mapped(n.content[2 * k + 1], n.content[2 * k].headComment)
                 && r.properties.list[k].schema.comment == (if n.content[2 * k + 1].kind == DocumentNode then "" else n.content[2 * k].headComment)
  {
    var r := Mapped(n, keyComment);
    forall k | 0 <= k < |r.properties.list|
      ensures r.properties.list[k].schema.comment == (if n.content[2 * k + 1].kind == DocumentNode then "" else n.content[2 * k].headComment)
    {
      MappedComment(n.content[2 * k + 1], n.content[2 * k].headComment);
    }
  }

  /** A sequence is an array of its elements, each mapped with an empty comment, in order. */
  lemma SequenceItems(n: Node, keyComment: string)
    requires WellFormed(n) && n.kind == SequenceNode
    ensures var r := Mapped(n, keyComment);
            && r.types == ["array"] && r.properties == NoProps && |r.items| == |n.content|
            && forall k | 0 <= k < |n.content| :: r.items[k] == Mapped(n.content[k], "") && r.items[k].comment == ""
  {
    forall k | 0 <= k < |n.content| ensures Mapped(n.content[k], "").comment == "" {
      MappedComment(n.content[k], "");
    }
  }

  /** The types the tags give; only a timestamp gets the format, spelled "data-time". */
  lemma ScalarTypes(n: Node, keyComment: string)
    requires n.kind == ScalarNode
    ensures var r := Mapped(n, keyComment);
            && |r.types| == 1
            && (n.tag == "!!str" || n.tag == "!binary" ==> r.types == ["string"])
            && (n.tag == "!!int" ==> r.types == ["integer"])
            && (n.tag == "!!float" ==> r.types == ["number"])
            && (n.tag == "!!bool" ==> r.types == ["boolean"])
            && (n.tag == "!!timestamp" ==> r.types == ["string"] && r.format == "data-time")
            && (n.tag == "!!null" ==> r.types == ["null"])
            && (n.tag !in {"!!str", "!binary", "!!int", "!!float", "!!bool", "!!timestamp", "!!null"} ==> r.types == ["object"])
            && (n.tag != "!!timestamp" ==> r.format == "")
  {
  }

  /**
   * A scalar's default is unset for empty text, the text itself when its type is "string", and
   * the text coerced as YAML otherwise.
   */
  lemma ScalarDefault(n: Node, keyComment: string)
    requires n.kind == ScalarNode
    ensures var r := Mapped(n, keyComment);
            && (n.value == "" ==> r.defaultValue == Nil)
            && (n.value != "" && "string" in r.types ==> r.defaultValue == Str(n.value))
            && (n.value != "" && "string" !in r.types ==> r.defaultValue == Yaml(n.value))
  {
  }

  /**
   * Every schema carries the comment it was mapped with, except a document's, which is its first
   * child's mapped with the empty comment.
   */
  lemma {:induction false} MappedComment(n: Node, keyComment: string)
    requires WellFormed(n)
    ensures Mapped(n, keyComment).comment == if n.kind == DocumentNode then "" else keyComment
    decreases n
  {
    if n.kind == DocumentNode {
      MappedComment(n.content[0], "");
    }
  }

  /** No mapped schema has an Extensions map: nodeSchema never allocates one. */
  lemma {:induction false} MappedNoExtensions(n: Node, keyComment: string)
    requires WellFormed(n)
    ensures Mapped(n, keyComment).extensions == None
    decreases n
  {
    if n.kind == DocumentNode {
      MappedNoExtensions(n.content[0], "");
    }
  }

  /**
   * `@order` on any mapped schema: the source's handler needs an Extensions map that no mapped
   * schema has (see README, Findings); the corrected handler allocates it and stores the order.
   */
  lemma OrderOnMappedSchema(n: Node, keyComment: string, sec: Section)
    requires WellFormed(n)
    ensures !Mapped(n, keyComment).extensions.Some?
    ensures HandleOrder(Mapped(n, keyComment), sec).extensions == Some(map["x-order" := Coerce(sec.value)])
  {
    MappedNoExtensions(n, keyComment);
  }

  // ----- nodeSchema and GenerateSchema -----

  /**
   * nodeSchema: a fresh schema filled in by node kind; the pairs of a mapping are visited two
   * content nodes at a time, and the elements of a sequence are collected before they are stored.
   */
  method NodeSchema(n: Node, keyComment: string) returns (s: Schema)
    requires WellFormed(n)
    ensures s == Mapped(n, keyComment)
    decreases n, 1
  {
    s := Empty;
    match n.kind {
      case DocumentNode =>
        var root := NodeSchema(n.content[0], "");
        root := root.(schemaUri := SchemaUri);
        return root;
      case MappingNode =>
        s := s.(types := ["object"]);
        var props := PairProperties(n, keyComment);
        s := s.(properties := Props(props));
      case SequenceNode =>
        s := s.(types := ["array"]);
        var schemas := ElementSchemas(n, keyComment);
        if |schemas| == 1 {
          s := s.(items := [schemas[0]]);
        } else {
          s := s.(items := schemas);
        }
      case ScalarNode =>
        var t := TagType(n.tag);
        s := s.(types := [t]);
        if n.tag == "!!timestamp" {
          s := s.(format := "data-time");
        }
        if n.value != "" {
          if "string" in s.types {
            s := s.(defaultValue := Str(n.value));
          } else {
            s := s.(defaultValue := Coerce(n.value));
          }
        }
      case _ =>
    }
    s := s.(comment := keyComment);
  }

  /** The mapping case of nodeSchema: its pairs, two content nodes at a time. */
  method PairProperties(n: Node, keyComment: string) returns (props: seq<Property>)
    requires WellFormed(n) && n.kind == MappingNode
    ensures props == Mapped(n, keyComment).properties.list
    decreases n, 0
  {
    props := [];
    var i := 0;
    while i < |n.content|
      invariant i % 2 == 0 && i <= |n.content|
      invariant props == Mapped(n, keyComment).properties.list[..i / 2]
      decreases |n.content| - i
    {
      var key, comment := n.content[i].value, n.content[i].headComment;
      var sub := NodeSchema(n.content[i + 1], comment);
      PairAt(n, keyComment, i / 2);
      PrefixSnoc(Mapped(n, keyComment).properties.list, i / 2, Property(key, sub));
      props := props + [Property(key, sub)];
      i := i + 2;
    }
    WholePrefix(Mapped(n, keyComment).properties.list);
  }

  /** The sequence case of nodeSchema: the schemas of its elements, collected in order. */
  method ElementSchemas(n: Node, keyComment: string) returns (schemas: seq<Schema>)
    requires WellFormed(n) && n.kind == SequenceNode
    ensures schemas == Mapped(n, keyComment).items
    decreases n, 0
  {
    schemas := [];
    for i := 0 to |n.content|
      invariant schemas == Mapped(n, keyComment).items[..i]
    {
      var sub := NodeSchema(n.content[i], "");
      PrefixSnoc(Mapped(n, keyComment).items, i, sub);
      schemas := schemas + [sub];
    }
    WholePrefix(Mapped(n, keyComment).items);
  }

  /** Entry `k` of a mapped mapping. */
  lemma PairAt(n: Node, keyComment: string, k: nat)
    requires WellFormed(n) && n.kind == MappingNode && 2 * k + 1 < |n.content|
    ensures k < |Mapped(n, keyComment).properties.list|
    ensures Mapped(n, keyComment).properties.list[k]
         == Property(n.content[2 * k].value, Mapped(n.content[2 * k + 1], n.content[2 * k].headComment))
  {
  }

  /**
   * GenerateSchema: a decoding error is returned as it is; a decoded tree is mapped with the
   * empty comment.
   */
  method GenerateSchema(decoded: Result<Node>) returns (r: Result<Schema>)
    requires decoded.Ok? ==> WellFormed(decoded.value)
    ensures decoded.Err? ==> r == Err(decoded.message)
    ensures decoded.Ok? ==> r == Ok(Mapped(decoded.value, ""))
  {
    if decoded.Err? {
      return Err(decoded.message);
    }
    var s := NodeSchema(decoded.value, "");
    return Ok(s);
  }
}
