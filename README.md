# helm-schema core in Dafny

A model of the core of `poxiaoyun/schema`, the library behind `helm-schema`. It turns a Helm
`values.yaml` document, whose head comments carry `@keyword value key=value` annotations, into a
JSON Schema, with one variant per locale named in the annotations (`@title.zh 标题`).

The model covers:

- **The annotation scanner and section parser** (`schema/extenssion.go`).
  - `Scanner` models the byte cursor (`Parser`), `ReadIdentity` with its quote, bare-token and
    end-of-line cases, `ParseSection`/`parseSection`, and `ParseComment`.
  - Each method is proved equal to a function over the line's bytes (`ScanIdentity`, `Body`,
    `SectionsAt`, `CommentSections`), and lemmas state the grammar's properties.
  - `ScannerExamples` evaluates the lines of `schema/extenssion_test.go`.
- **The annotation handlers** (`schema/extenssion.go`).
  - `Annotate` models `SetSchemaProp` with its synonyms, its `type` rule and the `required`/`enum`
    splits, and the `schema`, `param`, `hidden`, `order`, `title`, `x-enum`, `description` and
    default handlers, plus the dispatcher `CompleteFromCommentSection`.
  - A `*Schema` is a `SchemaRef` object whose value each handler method updates. The method is
    proved to leave the value a specification function computes.
- **The schema record and its JSON wrappers** (`schema/spec.go`, in `Spec`).
  - The three parts `Schema.MarshalJSON` concatenates, in order.
  - The ordered `SchemaProperties` encoding.
  - The choices `SchemaOrArray`, `SchemaOrBool` and `SchemaOrStringArray` make when marshalled
    and unmarshalled.
- **The document mapper** (`schema/generate.go`, in `Mapper`): a YAML node tree becomes a schema
  tree, and each key's head comment is kept on its value's schema.
- **The i18n engine and the pruner** (`schema/i18n.go`).
  - `I18n` models the partition of a comment by locale, `CompleteI18nFromComment`, and the
    recursive `CompleteI18n` with its write-back and merge loops.
  - `Purge` models `PurgeSchema`.
- **The older copy of all this in `schema/schema.go`**.
  - `LegacyScanner` holds its parser. `LegacyAnnotate` holds its handlers and
    `completeFromComment`. `LegacyPurge` holds its type-directed `PurgeSchema`. `LegacySplit`
    holds `SplitSchemaI18n`/`removeDotKey`.
  - `LegacyExamples` and `LegacySplitExamples` work through lines and trees on which the older
    code and the newer code differ.
- **Shared modules**: `Values` (`formatYamlStr`, `formatExtraValue`, `anyToBool`, and
  `strconv.ParseInt` written out in full), `Text` (the `strings` functions used), and `Wrappers`
  and `Seqs` (helpers).

Foreign code enters as parameters:

- YAML decoding: the decoded node tree is a parameter of `GenerateSchema`. A YAML-coerced scalar is
  kept as `Yaml(text)`.
- JSON decoding and `strconv.ParseFloat`: these are the fields of an `Env` record.
- Go's map iteration order and the dynamic `v.(string)` assertion: these are the fields of
  `LegacySplit.Host`.

Where the code panics or its own comments ask for something else, the model records both:

- The code panics or goes wrong in the places listed under "## Findings".
  - Each finding has a member written as the code is and a corrected member. The rest of the model
    uses the corrected one.
  - The members that stand for the entry points use the corrected behaviour. "## Left out" names
    them.
- `schema/schema_test.go` expects the older parser to return a section for a lone flag line.
  - The older parser in `schema/schema.go` drops it (`LegacyExamples.FlagDropped`).
  - That test also expects the whole text `PITR(Point-in-Time Recovery)` as the value. The older
    parser keeps the last bare word instead (`LegacyExamples.TitleLastWord` shows the rule).
- `schema/spec.go` declares no `Comment` field, yet `schema/generate.go:82` sets one and
  `schema/i18n.go:35` reads it. The model has a `comment` field that is not a JSON field, so no
  decoder fills it (`Spec.Sound`).

## Model

| member | source | states |
|---|---|---|
| Scanner.ScanIdentity | schema/extenssion.go:189-229 | one ReadIdentity from a position: the cursor never moves back or past the line, and a read that succeeds or yields a token consumes at least one byte |
| Scanner.Scanning | schema/extenssion.go:193-228 | the ReadIdentity loop from any state stays within the line; a success moves the cursor on; a failure stops at the end of the line with no terminator; a token ends after its start |
| Scanner.QuotedSpan | schema/extenssion.go:199-213 | a quoted span ends at the next byte equal to its opening quote; the quotes are stripped and the quote is the terminator |
| Scanner.QuotedTail | schema/extenssion.go:204-213 | inside a quote, the read runs to the matching quote |
| Scanner.UnclosedQuote | schema/extenssion.go:194-197 | an unclosed quote runs to the end of the line, and the read reports failure |
| Scanner.UnclosedTail | schema/extenssion.go:194-197 | the unclosed-quote case, from any position inside the quote |
| Scanner.BackslashDoesNotEscape | schema/extenssion.go:205-209 | the escape test reads the quote itself, so a backslash before the closing quote stays in the token and the quote still closes it |
| Scanner.BareSpan | schema/extenssion.go:214-226 | a bare span runs to the first `;`, `=` or space, which is the terminator; quotes inside it are ordinary bytes |
| Scanner.BareTail | schema/extenssion.go:214-226 | the bare-span case from any position inside the span |
| Scanner.BareToEnd | schema/extenssion.go:194-197 | a bare span that reaches the end of the line is returned whole, with failure |
| Scanner.BareEndTail | schema/extenssion.go:194-197 | the bare-to-end case from any position inside the span |
| Scanner.LeadingSpaces | schema/extenssion.go:218-221 | spaces before an identity are skipped |
| Scanner.SpacesTail | schema/extenssion.go:218-221 | the skipped-spaces case from any position among them |
| Scanner.SkipSeparators | schema/extenssion.go:91-100 | the leading-separator loop stops at the first byte other than `#`, `;` or space |
| Scanner.SkipsTo | schema/extenssion.go:91-100 | the separators end exactly at the first other byte |
| Scanner.RawEnd | schema/extenssion.go:133 | corrected raw-text cut: never before the section's first byte, and equal to the source's cut whenever that cut is in range |
| Scanner.RawEndAsWritten | schema/extenssion.go:133 | the source's cut of the raw text lies before the first byte of the following name, so it falls before the section's start when the section is empty (see Findings) |
| Scanner.Body | schema/extenssion.go:111-152 | parseSection returns at least one section, the first under the given name, and every later one named by an `@` token |
| Scanner.BodyBareStep | schema/extenssion.go:142-148 | the first bare token becomes the value; later bare tokens become options with an empty value |
| Scanner.BodyOptionStep | schema/extenssion.go:136-141 | `key=value` appends an option; a value read that reaches the end of the line closes the section |
| Scanner.BodyEmptyStep | schema/extenssion.go:124-129 | an empty read is skipped, or at the end of the line closes the section with its raw text |
| Scanner.BodyNameStep | schema/extenssion.go:130-135 | an `@` token closes the section, cut by RawEnd, and a new section starts from the token |
| Scanner.SectionsAt | schema/extenssion.go:90-109 | every section ParseSection returns is named by an `@` token |
| Scanner.SectionsAtName | schema/extenssion.go:101-108 | when the first identity is an `@` name, ParseSection is parseSection from after it |
| Scanner.NoAtNoSections | schema/extenssion.go:101-107 | a line without `@` has no section |
| Scanner.ScannedFrom | schema/extenssion.go:189-229 | every token is a piece of the line: a byte absent from the line is absent from every token |
| Scanner.NextLine | schema/extenssion.go:52-55 | ReadLine gives a line without a line break, and the rest of the text is shorter |
| Scanner.LineSections | schema/extenssion.go:56-62 | the sections of one line are all named by `@` tokens |
| Scanner.CommentSections | schema/extenssion.go:45-65 | the sections of a comment are all named by `@` tokens |
| Scanner.CommentWithoutAt | schema/extenssion.go:45-65 | a comment without `@` carries no annotation |
| Scanner.Parser.Read | schema/extenssion.go:161-168 | the byte under the cursor, and the cursor moves past it; at the end of the line, failure and the cursor stays |
| Scanner.Parser.Rewind | schema/extenssion.go:154-159 | the cursor moves one byte back, never before 0 |
| Scanner.Parser.constructor | schema/extenssion.go:59 | a fresh parser is over the line with its cursor at 0 |
| Scanner.Parser.ReadIdentity | schema/extenssion.go:189-229 | the loop returns exactly ScanIdentity's token, terminator and success, and leaves the cursor where ScanIdentity says |
| Scanner.Parser.ParseSection | schema/extenssion.go:90-109 | the returned sections are SectionsAt of the line from the cursor |
| Scanner.Parser.ParseSectionBody | schema/extenssion.go:111-152 | the returned sections are Body of the line from the cursor |
| Scanner.ParseComment | schema/extenssion.go:45-65 | the line loop returns CommentSections of the comment |
| Scanner.ParseLine | schema/extenssion.go:56-62 | one line parsed by a fresh Parser gives LineSections of it |
| ScannerExamples.ExampleFlag | schema/extenssion_test.go:14-22 | `# @readyOnly` is one flag section |
| ScannerExamples.ExampleArchitecture | schema/extenssion_test.go:23-41 | the test line gives the title with raw `"Architecture" ` and the x-enum section with its two options |
| ScannerExamples.ExampleEnumValue | schema/extenssion_test.go:42-52 | `# @enum 8.0.30` keeps its dots in value and raw |
| ScannerExamples.ExampleDescription | schema/extenssion_test.go:53-66 | `# @description PITR(Point-in-Time Recovery)` has the first word as its value and `Recovery)` as an option |
| ScannerExamples.NameOnly | schema/extenssion_test.go:14-22 | any `# @name` is one section with no value, no option and empty raw text |
| ScannerExamples.NameValue | schema/extenssion_test.go:42-52 | any `# @name value` has that value, and the value is the raw text too |
| ScannerExamples.NameValueOption | schema/extenssion_test.go:53-66 | in any `# @name value option`, the second bare word is an option with an empty value |
| ScannerExamples.QuotedLineSections | schema/extenssion_test.go:23-41 | the general shape of the test line: a quoted value, then a name with two quoted options |
| ScannerExamples.TwoNames | schema/extenssion.go:130-135 | `# @a @b` gives two flag sections, and the source's cut falls before the first section's start |
| ScannerExamples.RawCutBeforeSectionStart | schema/extenssion.go:133 | on `# @a @b` the source cuts at 4 while the section starts at 5 |
| ScannerExamples.ExampleTitle | schema/extenssion.go:45-65 | `# @title B` is one title section with value B |
| ScannerExamples.ExampleLocalisedTitle | schema/extenssion.go:45-65 | `# @title.zh P` keeps the locale suffix in the section name |
| ScannerExamples.SingleLine | schema/extenssion.go:45-65 | a comment of one line has exactly the sections of that line |
| Annotate.SplitKeyLocale | schema/extenssion.go:37-42 | a key with a `.` after its first byte splits at the first `.`, and the pieces join back to the key; any other key has no locale |
| Annotate.SplitJoinLocale | schema/extenssion.go:37-42 | a dotted key built from a base and a locale splits back into them |
| Annotate.FieldKeysAreFields | schema/extenssion.go:361-415 | exactly the listed keys have a field of their own; every other key goes to ExtraProps |
| Annotate.AnyToFloat | schema/extenssion.go:424-433 | a bound is set exactly when 32-bit ParseFloat accepts the text |
| Annotate.AddType | schema/extenssion.go:393-402 | the new type list holds the old types and the new one, and nothing else |
| Annotate.CoerceAll | schema/extenssion.go:385-390 | the enum values: one YAML-coerced value per piece, in order |
| Annotate.DecodeItems | schema/extenssion.go:403-408 | json.Unmarshal hands UnmarshalJSON the value without the JSON whitespace around it; decoded items exist only when that value opens with `{` or `[`, `{` gives the one decoded schema and `[` the decoded list, a decoding error leaves no items, and sound decoders give no comments |
| Annotate.DecodeItemsSkipsSpace | schema/extenssion.go:403-408 | whitespace in front of the value, as a quoted annotation value may keep, does not change the decoded items |
| Annotate.SetProp | schema/extenssion.go:361-415 | SetSchemaProp keeps the properties, the comment and the extensions; the items change only for `items`, to decoded schemas; ExtraProps change only for keys without a field |
| Annotate.SetSchemaProp | schema/extenssion.go:361-415 | the switch, including the enum loop, leaves SetProp of the old value |
| Annotate.TypeRule | schema/extenssion.go:393-402 | a listed type changes nothing; "null" is appended and any other type prepended; no duplicates are introduced |
| Annotate.RequiredSplit | schema/extenssion.go:375-376 | `required` holds one more piece than there are commas, the pieces join back to the text, and no other field changes |
| Annotate.EnumSplit | schema/extenssion.go:385-390 | `enum` holds one coerced value per comma-separated piece, in order, and nothing else changes |
| Annotate.LengthLimits | schema/extenssion.go:365-368 | the length limits hold any 64-bit decimal exactly, and nothing for malformed text |
| Annotate.LimitFields | schema/extenssion.go:363-370 | min/minmum, max/maxmum, minLength/minLen/minlen and maxLength/maxLen/maxlen name the same fields |
| Annotate.Synonyms | schema/extenssion.go:363-370 | synonym keys give the same schema |
| Annotate.ExtraPropsOnlyForOtherKeys | schema/extenssion.go:409-414 | a key without a field sets ExtraProps[k] to formatExtraValue and nothing else; a field key never touches ExtraProps |
| Annotate.SetPropIdempotent | schema/extenssion.go:361-415 | setting the same key and value twice is setting it once |
| Annotate.SetPropLastWins | schema/extenssion.go:361-415 | for every key but `type`, a later value replaces an earlier one |
| Annotate.OptionFields | schema/extenssion.go:250-253 | the option map has exactly the options' names as keys |
| Annotate.OptionFieldsLastWins | schema/extenssion.go:250-253 | an option that no later option shares a name with keeps its coerced value |
| Annotate.HandleDefault | schema/extenssion.go:238-258 | options without a value are stored as a map under the keyword |
| Annotate.DefaultCases | schema/extenssion.go:238-258 | a bare keyword sets it to "true"; a value sets it through SetSchemaProp; the properties never change |
| Annotate.DefaultOptionHandler | schema/extenssion.go:238-258 | the handler leaves HandleDefault of the old value |
| Annotate.HiddenOptions | schema/extenssion.go:300-308 | no kept option is an `operator` option, and none is added; `HiddenOptionsMembers` gives the exact filter and `HiddenOptionsAppend` its order |
| Annotate.HiddenOptionsAppend | schema/extenssion.go:300-308 | the filter keeps order: it distributes over concatenation |
| Annotate.HiddenOptionsMembers | schema/extenssion.go:300-308 | an option survives exactly when it is not named `operator` |
| Annotate.HiddenOperatorLastWins | schema/extenssion.go:302-310 | the last `operator` option gives the operator |
| Annotate.Conditions | schema/extenssion.go:340-342 | one condition per option, its name as the path and its coerced value |
| Annotate.HandleHidden | schema/extenssion.go:295-344 | only ExtraProps may change, and the only key they may gain is `hidden` |
| Annotate.HiddenCases | schema/extenssion.go:295-344 | a value is stored as a scalar; no option writes nothing; one option gives one condition, negated under "not" when its name ends in `!`; several options give every condition, in order, as path and coerced value, under the operator or "or"; in every case only the `hidden` entry of ExtraProps is written and the others keep their values |
| Annotate.HiddenOptionHandler | schema/extenssion.go:295-344 | the handler's loops leave HandleHidden of the old value |
| Annotate.HandleOrderAsWritten | schema/extenssion.go:348-350 | as written: with an existing Extensions map, x-order is the coerced value and nothing else changes |
| Annotate.HandleOrder | schema/extenssion.go:348-350 | corrected: Extensions is allocated when missing and holds x-order; nothing else changes |
| Annotate.OrderAgrees | schema/extenssion.go:348-350 | where the source does not panic, the corrected handler does what it does |
| Annotate.OrderOptionHandler | schema/extenssion.go:348-350 | the handler leaves HandleOrder of the old value |
| Annotate.HandleTitle | schema/extenssion.go:352-358 | the title handler keeps the properties and the comment |
| Annotate.TitleForm | schema/extenssion.go:352-358 | a non-empty title sets `form` to true; otherwise the schema is what the default handler leaves; the title is the default handler's; a bare `@title` sets the title to "true" and so sets `form` |
| Annotate.TitleFormFields | schema/extenssion.go:383-384 | `title` is a field and `form` is an extra property |
| Annotate.TitleOptionHandler | schema/extenssion.go:352-358 | the handler leaves HandleTitle of the old value |
| Annotate.XEnumEntries | schema/extenssion.go:468-471 | one `{text, value}` entry per option: the option's value as text and its coerced name as value |
| Annotate.HandleXEnum | schema/extenssion.go:464-476 | x-enum holds the entries; render is kept when present and otherwise set to "radio"; nothing else changes |
| Annotate.XEnumOptionHandler | schema/extenssion.go:464-476 | the handler's loop leaves HandleXEnum of the old value |
| Annotate.HandleSchema | schema/extenssion.go:232-236 | `@schema` options keep the properties, the comment and the extensions |
| Annotate.HandleDescription | schema/extenssion.go:478-480 | the description becomes the section's raw text, and nothing else changes |
| Annotate.HandleSchemaAppend | schema/extenssion.go:232-236 | options apply one after the other |
| Annotate.SchemaOptionHandler | schema/extenssion.go:232-236 | the loop leaves HandleSchema of the old value |
| Annotate.Apply | schema/extenssion.go:24-35 | one section, dispatched by name, keeps the properties and the comment, and the items stay or become decoded schemas |
| Annotate.Dispatch | schema/extenssion.go:14-35 | a keyword without a handler goes to the default handler under its name without `@`; `param` changes nothing; `description` takes the raw text |
| Annotate.Run | schema/extenssion.go:14-35 | every registered handler keeps the shape; `param` changes nothing; only `schema` and `title` may touch items or properties |
| Annotate.ApplyAll | schema/i18n.go:104-108 | sections applied in order keep the properties and the comment |
| Annotate.ApplyAllAppend | schema/i18n.go:104-108 | applying a + b is applying a, then b |
| Annotate.CompleteFromCommentSection | schema/extenssion.go:24-35 | the dispatcher leaves Apply of the old value, and its error is nil |
| Values.Coerce | schema/extenssion.go:261-270 | formatYamlStr: the empty string is nil, any other text is its YAML value |
| Values.FormatExtraValue | schema/extenssion.go:450-462 | the empty string is nil; `{`/`[` text is the decoded JSON when it decodes, else the text; anything else is YAML-coerced |
| Values.AnyToBool | schema/extenssion.go:446-448 | true exactly for "true" and "1" |
| Values.ParseInt | schema/extenssion.go:435-444 | ParseInt base 10 with 64 bits: a result is within the 64-bit range |
| Values.ParseFormatInt | schema/extenssion.go:439 | every 64-bit integer survives formatting followed by ParseInt |
| Values.DigitsRoundTrip | schema/extenssion.go:439 | the decimal digits of a natural number read back as that number |
| Values.ParseIntRejectsNonDigit | schema/extenssion.go:439-442 | a non-digit after the sign position is an error |
| Values.ParseIntOverflow | schema/extenssion.go:439-442 | one past the largest 64-bit integer is an error |
| Text.Split | schema/extenssion.go:376 | strings.Split gives one more piece than separators, and no piece holds the separator |
| Text.JoinSplit | schema/extenssion.go:376 | the pieces joined by the separator give the text back |
| Text.SplitNoSeparator | schema/extenssion.go:376 | text without the separator splits into itself alone |
| Text.Index | schema/extenssion.go:38 | the first index of the byte, or -1 exactly when it is absent |
| Text.TrimPrefix | schema/extenssion.go:28 | the prefix is dropped exactly when present |
| Text.TrimSuffix | schema/extenssion.go:323 | the suffix is dropped exactly when present |
| Spec.SchemaJson | schema/spec.go:61-75 | MarshalJSON writes three parts: the fixed fields without the two maps and the comment, then Extensions, then ExtraProps |
| Spec.SchemaJsonParts | schema/spec.go:61-75 | the parts are the fixed fields, Extensions (`null` when nil) and ExtraProps, in that order; two schemas marshal alike exactly when they differ at most in their comments |
| Spec.ItemsJson | schema/spec.go:120-125 | SchemaOrArray marshalling never finishes exactly when the list is empty, since json.Marshal calls the same method again; otherwise it writes a schema |
| Spec.ItemsJsonKeepsOnlyFirst | schema/spec.go:120-125 | lists that share a first schema marshal alike |
| Spec.UnmarshalItems | schema/spec.go:128-148 | `{` gives a one-element list and `[` the decoded list; any other input (and input of one byte) keeps the receiver; the result is an error exactly when the decoder for `{` or `[` fails |
| Spec.TrimLeadingSpace | schema/extenssion.go:404 | the longest suffix of the input whose first byte is not JSON whitespace; only whitespace is dropped |
| Spec.TrimTrailingSpace | schema/extenssion.go:404 | the longest prefix of the input whose last byte is not JSON whitespace; only whitespace is dropped |
| Spec.JsonValueBytes | schema/extenssion.go:404 | the bytes an UnmarshalJSON method receives neither start nor end with JSON whitespace |
| Spec.LeadingSpaceSkipped | schema/extenssion.go:404 | whitespace in front of the input does not change the bytes UnmarshalJSON receives |
| Spec.BoolJson | schema/spec.go:155-163 | true when allowed, else the schema when there is one, else false; each case iff |
| Spec.UnmarshalBool | schema/spec.go:165-180 | `true`/`false` set only `allows`; other input is decoded as a schema or returns the error |
| Spec.BoolRoundTrip | schema/spec.go:155-180 | a boolean without a schema survives marshal then unmarshal |
| Spec.FalseKeepsSchema | schema/spec.go:165-173 | unmarshalling `false` into a receiver holding a schema keeps the schema, so it marshals as that schema |
| Spec.StringArrayJson | schema/spec.go:189-197 | a non-empty string list first, then the schema, else null; each case iff |
| Spec.UnmarshalStringArray | schema/spec.go:200-220 | `{` sets only the schema and `[` only the strings; any other input resets the receiver; the result is an error exactly when the decoder fails; never both a schema and strings |
| Spec.UnmarshalOtherInput | schema/spec.go:200-220 | on `null` a SchemaOrArray keeps its list while a SchemaOrStringArray is reset |
| Spec.StringArrayRoundTrip | schema/spec.go:189-220 | decoded strings marshal back as those strings |
| Spec.PropertiesJsonKeepsOrder | schema/spec.go:87-111 | the names are written once each, in slice order, with one separator between neighbours |
| Spec.MarshalProperties | schema/spec.go:87-111 | the buffer loop writes exactly PropertiesJson of the properties, which PropertiesJsonKeepsOrder describes |
| Mapper.TagType | schema/generate.go:56-72 | the type is "string" exactly for `!!str`, `!binary` and `!!timestamp` |
| Mapper.DocumentStamped | schema/generate.go:20-26 | a document is its first child mapped with an empty comment and stamped with the JSON-Schema URI |
| Mapper.ScalarSchema | schema/generate.go:55-80 | a scalar has its tag's type and nothing else set but the format and default; the format is set exactly for a timestamp; the default is nil exactly for empty text, the text itself for a string type, and the YAML value otherwise |
| Mapper.Mapped | schema/generate.go:17-84 | every node but a document carries the key's comment; a document is stamped with the schema URI; a mapping is an object with a property list, a sequence an array with one item per element, and a scalar has its tag's type |
| Mapper.MappingEntries | schema/generate.go:27-39 | a mapping is an object with non-nil properties, one per key/value pair in order, named by the key and built with the key's head comment |
| Mapper.PairAt | schema/generate.go:32-38 | entry k is the k-th key with its value mapped under the key's head comment |
| Mapper.SequenceItems | schema/generate.go:40-54 | a sequence is an array of its elements, each mapped with an empty comment, in order, with nil properties |
| Mapper.ScalarTypes | schema/generate.go:55-72 | the type of each tag; only a timestamp gets the format "data-time" |
| Mapper.ScalarDefault | schema/generate.go:73-80 | empty text leaves the default unset; a string type keeps the text; other types YAML-coerce it |
| Mapper.MappedComment | schema/generate.go:82 | every schema carries the comment it was mapped with; a document carries its first child's |
| Mapper.MappedNoExtensions | schema/generate.go:17-84 | no mapped schema has an Extensions map |
| Mapper.OrderOnMappedSchema | schema/extenssion.go:349 | no mapped schema can take the source's `@order`; the corrected handler stores the order |
| Mapper.NodeSchema | schema/generate.go:17-84 | the method returns Mapped of the node |
| Mapper.PairProperties | schema/generate.go:32-39 | the pair loop builds the mapped properties |
| Mapper.ElementSchemas | schema/generate.go:42-54 | the element loop builds the mapped items |
| Mapper.GenerateSchema | schema/generate.go:8-14 | a decoding error is returned as it is; a decoded tree is mapped with the empty comment |
| Purge.Titled | schema/i18n.go:20-27 | the kept properties all have a title and are no more than the input |
| Purge.TitledMembers | schema/i18n.go:20-27 | a property is kept exactly when it is in the list and has a title |
| Purge.PurgedListIsTitled | schema/i18n.go:20-27 | the kept properties are the titled ones, in order, each purged |
| Purge.AllTitledKept | schema/i18n.go:20-27 | a list whose properties all have titles is kept whole |
| Purge.PurgedShape | schema/i18n.go:15-32 | only the properties and items change; the properties are the titled ones, purged, and nil when there is none; every item is purged |
| Purge.Purged | schema/i18n.go:15-32 | only the properties and items change, the item count is kept, and a property list that remains is never empty |
| Purge.PurgedAllTitled | schema/i18n.go:15-32 | after PurgeSchema every property reachable through properties and items has a title |
| Purge.PurgeIdempotent | schema/i18n.go:15-32 | PurgeSchema twice is PurgeSchema once |
| Purge.PurgeSchema | schema/i18n.go:15-32 | a non-nil schema ends as Purged of its old value |
| Purge.PurgeNode | schema/i18n.go:19-31 | the two loops leave Purged of the old value |
| I18n.WithoutLocale | schema/i18n.go:97-99 | the sections without a locale have no locale |
| I18n.Locales | schema/i18n.go:93-96 | the empty locale is never a locale |
| I18n.LocalisedName | schema/i18n.go:93-95 | a section named base.locale has that locale and is named base without it |
| I18n.PartitionNoLocale | schema/i18n.go:90-100 | the sections without a locale are the filter, in order |
| I18n.PartitionSections | schema/i18n.go:90-100 | corrected partition: the locale-less list is no longer than the input, the empty locale is never a key, and every locale present holds a section |
| I18n.PartitionAsWritten | schema/i18n.go:90-100 | the partition as written (see Findings, `schema/i18n.go:96`): the same bounds, with only the last section of a locale kept (`PartitionKeepsOnlyLast`) |
| I18n.OfLocale | schema/i18n.go:93-96 | the sections of a non-empty locale are none exactly when no section names that locale |
| I18n.PartitionIsFilter | schema/i18n.go:90-100 | corrected partition: one list per locale named, holding exactly that locale's sections in order |
| I18n.PartitionAsWrittenShape | schema/i18n.go:90-100 | as written, the locale-less list and the set of locales are the same |
| I18n.PartitionedShape | schema/i18n.go:90-100 | both partitions agree on the locale-less sections and the locales |
| I18n.PartitionTwoOfOneLocale | schema/i18n.go:96 | two sections of one locale: the source keeps only the last, the corrected partition both |
| I18n.PartitionKeepsOnlyLast | schema/i18n.go:96 | `@title.zh A` then `@description.zh B`: the source's zh list is the description alone |
| I18n.LocaleVariants | schema/i18n.go:109-118 | one variant per locale, each keeping the shape of the original |
| I18n.FromComment | schema/i18n.go:89-120 | the original is the schema with the locale-less sections applied in order; one variant per named locale, that locale's sections applied to the original |
| I18n.FromCommentAsWritten | schema/i18n.go:89-120 | as written: the same original and locales, each variant the original with the source's list for it applied |
| I18n.FromCommentAsWrittenAgrees | schema/i18n.go:96 | the source and the corrected partition build the same original, for the same locales |
| I18n.CombineErrors | schema/i18n.go:131-136 | nil exactly when there is no error |
| I18n.SplitByLocale | schema/i18n.go:90-100 | the corrected partition loop (see Findings, `schema/i18n.go:96`): it builds PartitionSections, where each locale's list holds all of that locale's sections |
| I18n.ApplySections | schema/i18n.go:104-108 | the loop leaves ApplyAll of the old value, with no error |
| I18n.ApplyLocales | schema/i18n.go:109-118 | the loop over the locales builds LocaleVariants of the original |
| I18n.CompleteI18nFromComment | schema/i18n.go:89-120 | returns FromComment, with a nil error |
| I18n.PutItem | schema/i18n.go:70 | the item at position i is replaced and nothing else changes; a position past the end changes nothing (the source panics there) |
| I18n.PutProperty | schema/i18n.go:78 | property i's schema is replaced, its name and every other property kept; a position past the end changes nothing (the source panics there) |
| I18n.WrittenBack | schema/i18n.go:57-63 | each child's original replaces the child at its position; names, count and nil-ness are kept |
| I18n.Merged | schema/i18n.go:65-80 | each item and property keeps its place and name; a child with a variant for l has that variant at its position, and every other child is as in the base |
| I18n.Updated | schema/i18n.go:103-108 | the node with its locale-less sections applied keeps its shape, and is the node itself when comment-free |
| I18n.Assemble | schema/i18n.go:65-81 | the original is the written-back node; the locales are the node's own and every child's |
| I18n.ResolveItems | schema/i18n.go:40-47 | one resolved item per item |
| I18n.ResolveProps | schema/i18n.go:48-55 | one resolved property per property |
| I18n.ResolveUnfold | schema/i18n.go:34-82 | CompleteI18n at one node, in terms of its updated form, resolved children and own variants |
| I18n.Resolve | schema/i18n.go:34-82 | CompleteI18n below a node: every locale of the node's own comment has a variant |
| I18n.ResolveNode | schema/i18n.go:34-82 | CompleteI18n at a node: every locale of the node's own comment has a variant; `ResolveKeys` gives the whole key set |
| I18n.ResolveWritesBack | schema/i18n.go:57-63 | the original is the updated node with each child replaced by its resolved original; names, order and count are kept |
| I18n.ResolveKeys | schema/i18n.go:65-80 | the locales are those of the node's comment and of its resolved children |
| I18n.ResolveLocaleKeys | schema/i18n.go:65-80 | l is a locale iff the node's comment names it or some resolved item or property has it |
| I18n.ItemLocalesReachParent | schema/i18n.go:65-72 | every locale of an item is a locale of the node |
| I18n.PropertyLocalesReachParent | schema/i18n.go:73-80 | every locale of a property is a locale of the node |
| I18n.ResolveVariant | schema/i18n.go:34-82 | a variant starts from the written-back original (as written, from the original before the write-back) with its own sections applied, then each child's variant goes in at its position |
| I18n.ChildOnlyLocaleItem | schema/i18n.go:65-72 | for a locale only children have, the variant is the written-back original with other children; item i is its variant for l when it has one and its original otherwise |
| I18n.ChildOnlyLocaleProperty | schema/i18n.go:73-80 | the same for property i, under its own name |
| I18n.ResolveCommentFree | schema/i18n.go:34-82 | a tree without comments resolves to itself with no variant |
| I18n.CompleteCommentFree | schema/i18n.go:34-82 | CompleteI18n of a comment-free tree is the tree with no variant |
| I18n.MergedNothing | schema/i18n.go:65-80 | before any child, a variant is where it starts from |
| I18n.MergedItemStep | schema/i18n.go:65-72 | one more item child puts its variant for l at its position |
| I18n.MergedPropertyStep | schema/i18n.go:73-80 | one more property child puts its variant for l at its position |
| I18n.MergedUntouched | schema/i18n.go:65-80 | a locale no child has leaves the base as it is |
| I18n.MergeItemLocales | schema/i18n.go:66-71 | a locale new to the node is cloned from the original, then the child's variant is stored at its position |
| I18n.MergePropertyLocales | schema/i18n.go:74-79 | the same for a property child |
| I18n.WriteBack | schema/i18n.go:57-63 | the write-back loops leave WrittenBack of the old value |
| I18n.MergeChildren | schema/i18n.go:65-80 | the merge loops leave the merged variants of every child |
| I18n.CompleteI18n | schema/i18n.go:34-82 | returns Complete, with a nil error |
| I18n.Complete | schema/i18n.go:34-82 | corrected CompleteI18n (see Findings, `schema/i18n.go:35`): every locale of the top node's comment has a variant |
| I18n.CompleteAsWritten | schema/i18n.go:34-82 | CompleteI18n as written, with the source's clone order and partition: every locale of the top node's comment has a variant |
| I18n.CompleteItems | schema/i18n.go:40-47 | the loop returns the resolved items |
| I18n.CompleteItem | schema/i18n.go:42-46 | one item resolved |
| I18n.CompleteProperties | schema/i18n.go:48-55 | the loop returns the resolved properties |
| I18n.CompleteProperty | schema/i18n.go:50-54 | one property resolved |
| I18nExamples.ApplyTitle | schema/extenssion.go:352-358 | one `@title v` sets the title and keeps the items |
| I18nExamples.ChildResolves | schema/i18n.go:34-82 | an item whose comment is one title resolves to its titled original, with no variant |
| I18nExamples.ParentVariantItem | schema/i18n.go:65-72 | under a `@title.zh` parent, the zh variant's item is the written-back item (as written, the item before its title) |
| I18nExamples.OwnLocaleClonedBeforeWriteBack | schema/i18n.go:35 | the item title B reaches the parent's zh variant in the corrected model and is "" as written |
| LegacyScanner.Body | schema/schema.go:284-325 | the older parseSection returns at least one section, the first under the given name, unless it recurses forever (None) |
| LegacyScanner.SectionsAt | schema/schema.go:263-282 | the older ParseSection's sections are all named by `@` tokens |
| LegacyScanner.LineSections | schema/schema.go:229-235 | one line's sections are named by `@` tokens |
| LegacyScanner.CommentSections | schema/schema.go:218-238 | a comment's sections are named by `@` tokens |
| LegacyScanner.ParseSection | schema/schema.go:263-282 | the method returns SectionsAt from the cursor |
| LegacyScanner.ParseSectionBody | schema/schema.go:284-325 | the method returns Body from the cursor, rewinding one byte at an `@` token |
| LegacyScanner.ParseComment | schema/schema.go:218-238 | the line loop returns CommentSections |
| LegacyScanner.ParseLine | schema/schema.go:229-235 | one line parsed by a fresh cursor |
| LegacyScanner.ScannedSlice | schema/schema.go:362-402 | a token is the stretch just before where the read stopped |
| LegacyScanner.RawRunsThroughName | schema/schema.go:303-307 | at a following `@` name, the older raw text runs on through that name, while the newer one stops before it |
| LegacyScanner.NameAtEndOfLine | schema/schema.go:274-277 | a name running to the end of the line: no section in the older parser, one in the newer |
| LegacyScanner.LastWordWins | schema/schema.go:315-321 | bare words after a name: the older parser keeps the last as the value and makes no option |
| LegacyScanner.FirstWordWins | schema/extenssion.go:142-148 | the same words in the newer parser: the first is the value and the others are options |
| LegacyScanner.WordsAsOptions | schema/extenssion.go:146 | once a section has a value, every further bare word is an option |
| LegacyExamples.FlagDropped | schema/schema.go:274-277 | `# @readyOnly`: no section in the older parser, one flag section in the newer |
| LegacyExamples.NameThenWords | schema/schema.go:315-321 | `# name w1 ... wn`: the last word as the value (older) against the first with options (newer) |
| LegacyExamples.TitleLastWord | schema/schema.go:315-321 | `# @title a b`: "b" in the older parser; "a" and the option "b" in the newer |
| LegacyExamples.TrailingAtNeverEnds | schema/schema.go:303-307 | `# @a @` makes the older parser recurse on the same position forever |
| LegacyExamples.TrailingAtEndsInNewer | schema/extenssion.go:127-135 | the newer parser, with the corrected cut, ends on `# @a @` and gives the flag sections `@a` and `@` |
| LegacyExamples.LegacySingleLine | schema/schema.go:218-238 | a comment of one line has exactly the sections the older ParseSection finds in it |
| LegacyAnnotate.SetProp | schema/schema.go:530-601 | the older SetSchemaProp keeps the shape and the extensions; items change only for `items`; ExtraProps gain at most k |
| LegacyAnnotate.NullableRule | schema/schema.go:562-567 | nullable is true for "" and for the true spellings of ParseBool; the newer code accepts only "true" and "1"; the two agree exactly off the five extra spellings |
| LegacyAnnotate.ParseBool | schema/schema.go:566 | strconv.ParseBool accepts only texts of one to five bytes, and the value is true exactly when the first byte is `1`, `t` or `T` |
| LegacyAnnotate.SameOffNullable | schema/schema.go:545-600 | every key but nullable is set as the newer code sets it |
| LegacyAnnotate.SetSchemaProp | schema/schema.go:530-601 | the method leaves the older SetProp of the old value |
| LegacyAnnotate.HandleDefault | schema/schema.go:411-427 | the older default handler keeps the shape and the extensions |
| LegacyAnnotate.DefaultCases | schema/schema.go:411-427 | a bare keyword changes nothing, unlike the newer handler; options alone are stored as in the newer one; a value goes through SetSchemaProp |
| LegacyAnnotate.DefaultOptionHandler | schema/schema.go:411-427 | the method leaves HandleDefault of the old value |
| LegacyAnnotate.HandleTitle | schema/schema.go:521-527 | the older title handler keeps the shape and the extensions |
| LegacyAnnotate.TitleForm | schema/schema.go:521-527 | the title is the value or stays; form is set exactly when titled; a bare `@title` on an untitled schema changes nothing |
| LegacyAnnotate.TitleOptionHandler | schema/schema.go:521-527 | the method leaves HandleTitle of the old value |
| LegacyAnnotate.HandleSchema | schema/schema.go:405-409 | the older `@schema` handler keeps the shape and the extensions |
| LegacyAnnotate.HandleSchemaAgrees | schema/schema.go:405-409 | without a nullable option it does what the newer one does |
| LegacyAnnotate.SchemaOptionHandler | schema/schema.go:405-409 | the method leaves HandleSchema of the old value |
| LegacyAnnotate.Apply | schema/schema.go:204-213 | one section dispatched; Extensions change only for `@order`, which needs them to exist |
| LegacyAnnotate.ApplyAll | schema/schema.go:202-215 | sections applied in order keep the shape; Extensions stay unless some section is `@order` |
| LegacyAnnotate.BareKeywordsChangeNothing | schema/schema.go:411-418 | lone keywords without a handler change nothing |
| LegacyAnnotate.CompleteFromComment | schema/schema.go:202-215 | the loop leaves ApplyAll of the older parser's sections |
| LegacyAnnotate.ApplySection | schema/schema.go:204-213 | one section dispatched to its handler |
| LegacyPurge.PurgedListIsTitled | schema/schema.go:43-52 | the kept properties are the titled ones, in order, each purged |
| LegacyPurge.PurgedShape | schema/schema.go:37-58 | an object node keeps its titled properties, purged (nil when none), and its items; an array node that is not an object purges its items; any other node is unchanged |
| LegacyPurge.Purged | schema/schema.go:37-58 | only the properties and items change; the properties change only on an object node, and the items only on an array node that is not an object |
| LegacyPurge.PurgedObjectsTitled | schema/schema.go:37-58 | every property the older purge reaches has a title |
| LegacyPurge.PurgeIdempotent | schema/schema.go:37-58 | the older PurgeSchema twice is once |
| LegacyPurge.PurgeSchema | schema/schema.go:37-58 | a non-nil schema ends as the older Purged of its old value |
| LegacyPurge.PurgeNode | schema/schema.go:41-57 | the loops leave the older Purged of the old value |
| LegacySplit.Cut | schema/schema.go:72-78 | the base key before the first `.` holds no `.` |
| LegacySplit.CutJoins | schema/schema.go:78 | base + "." + language is the key |
| LegacySplit.RemoveDotKey | schema/schema.go:108-112 | exactly the keys without a `.` remain, with their values |
| LegacySplit.OwnLocales | schema/schema.go:67-85 | every language copy of the first loop has the node's property count |
| LegacySplit.OwnLocalesKeys | schema/schema.go:67-85 | the first loop makes a variant exactly for the languages of the moved keys it visits |
| LegacySplit.OwnKeys | schema/schema.go:67-85 | the node's own variants are exactly the languages of its moved keys |
| LegacySplit.OwnLocalesUndotted | schema/schema.go:79-82 | no own variant keeps a dotted extra key |
| LegacySplit.OwnLocalesProperties | schema/schema.go:79-84 | the own variants keep the node's properties |
| LegacySplit.ItemsLoop | schema/schema.go:86-93 | the items loop returns iff each item's languages have an own variant with that item; it keeps the keys and property counts |
| LegacySplit.PropsLoop | schema/schema.go:94-104 | the properties loop adds exactly the languages named below the properties, and keeps the property count |
| LegacySplit.SplitDefined | schema/schema.go:62-106 | the split returns iff no recursive call panics and every item's languages fit; it returns the own languages and those below the properties |
| LegacySplit.SplitI18n | schema/schema.go:62-106 | when the split returns, every recursive call returned, and every language of the node's own keys has a variant |
| LegacySplit.SplitValue | schema/schema.go:62-106 | the result is the properties loop run on what the items loop leaves |
| LegacySplit.LeafSplit | schema/schema.go:62-85 | a node without items or properties splits into its own variants |
| LegacySplit.SplitLanguages | schema/schema.go:62-106 | the languages returned are those of the moved keys of the node and of the nodes below its properties |
| LegacySplit.StrippedClean | schema/schema.go:67-77 | the split leaves no translation behind in the tree it is given |
| LegacySplit.Stripped | schema/schema.go:67-77 | only ExtraProps, items and properties change; ExtraProps lose entries and keep the others' values; the item and property counts are kept |
| LegacySplit.SplitProperty | schema/schema.go:94-104 | property k of the variant for l is the child's result for l under the original name when there is one; otherwise the original property when l is an own language or was met before k, and the stripped one when l is first met after k |
| LegacySplit.SplitOwnVariant | schema/schema.go:79-93 | an own language's variant is its copy with the item results for l at their indices |
| LegacySplit.SplitNewVariant | schema/schema.go:96-98 | a language first met below a property is the stripped node with other properties |
| LegacySplitExamples.OwnLocalesOfOne | schema/schema.go:67-85 | the first loop over one moved key makes one copy with the base key set |
| LegacySplitExamples.TranslatedOwn | schema/schema.go:79-84 | a node with one translated key has one own variant |
| LegacySplitExamples.TranslatedStripped | schema/schema.go:77 | such a node loses its only entry |
| LegacySplitExamples.TranslatedTitleSplit | schema/schema.go:67-85 | a translated title splits into that language's variant, titled |
| LegacySplitExamples.ItemOnlyTranslationPanics | schema/schema.go:87-91 | an item translated into a language its parent lacks dereferences nil |
| LegacySplitExamples.SetTitle | schema/schema.go:570-571 | the older SetSchemaProp on `title` sets the title |

## Left out

- Scanner.Body: uses the corrected cut `RawEnd`. On `# @a @b` the source's slice at `schema/extenssion.go:133` is out of range and panics; the model returns two flag sections. See Findings.
- Scanner.Parser.ParseSectionBody: proved equal to `Scanner.Body`, so it has the same corrected cut. `RawEndAsWritten` is the source's cut.
- Annotate.Apply: `@order` goes to the allocating `HandleOrder`. The source writes into a nil Extensions map at `schema/extenssion.go:349` and panics. See Findings.
- Annotate.CompleteFromCommentSection: proved equal to `Annotate.Apply`, so `@order` allocates. `HandleOrderAsWritten` is the source's handler.
- I18n.FromComment: partitions with `PartitionSections`, which keeps every section of a locale. The source appends to the list under the base name (`schema/i18n.go:96`). `FromCommentAsWritten` is the source's behaviour.
- I18n.CompleteI18nFromComment: proved equal to `I18n.FromComment`, so it uses the corrected partition.
- I18n.SplitByLocale: the partition loop builds the corrected `PartitionSections`. It appends each localised section to its own locale's list, where the source appends to the list under the base name (`schema/i18n.go:96`). `PartitionAsWritten` is the source's loop.
- I18n.Complete: clones the node's own locale variants after the children's originals are written back. The source clones them first (`schema/i18n.go:35`, via `:110-118`). It also uses the corrected partition. `CompleteAsWritten` is the source's order with the source's partition.
- I18n.CompleteI18n: proved equal to `I18n.Complete`, so it has the same two corrections.
- I18n.PutItem: skips a child position past the end of the variant's items. The source indexes out of range and panics (`schema/i18n.go:70`). A locale variant whose own section replaced the items (`@items.zh {}`) reaches it.
- I18n.PutProperty: skips a position past the end of the variant's properties, where the source panics (`schema/i18n.go:78`).
- I18n.Merged: built from PutItem and PutProperty, so it skips those positions too.
- I18n.CompleteI18n: requires sound decoders, meaning no decoded schema carries a comment. This holds because Comment is not a JSON field, and it gives the recursion over the updated tree a measure.
- LegacySplit.SplitI18n: modelled on values, with no method.
  - The in-place deletion of translations from the caller's tree is stated as `Stripped`, which is what the split leaves of its input.
  - The model does not capture that the deletion reaches the caller's tree, through the maps that struct copies share.
  - The loops are stated by their results (`ItemsLoop`, `PropsLoop`). The nil input is not modelled, because a Schema here is a value.
  - Panics (a nil variant at `schema/schema.go:89`, an index out of range) give None.
- LegacyScanner.ParseSection: requires that the older parser terminates. On a line ending in a lone `@` token the source recurses forever (`schema/schema.go:303-307`). The functions give None there (`TrailingAtNeverEnds`).
- LegacyScanner.ParseSectionBody, LegacyScanner.ParseComment, LegacyScanner.ParseLine: same termination precondition.
- LegacyAnnotate.Apply: requires an Extensions map for `@order`. The older handler panics without one (`schema/schema.go:518`).
- LegacyAnnotate.ApplyAll, LegacyAnnotate.CompleteFromComment, LegacyAnnotate.ApplySection: same precondition.
- Annotate.HandleOrderAsWritten: same precondition, for the newer handler.
- Mapper.NodeSchema: requires a well-formed tree: a document has a child, and a mapping has key/value pairs. yaml.v3 never builds any other tree, and the source would index past `Content` on one.
- Mapper.Mapped: a document whose root maps to nil is not modelled; nodeSchema never returns nil for a decoded node.
- Legacy GenerateSchema and nodeSchema (`schema/schema.go:123-200`) are not separate members.
  - They are the mapping of `Mapper.Mapped`, followed at each node by `completeFromComment`.
  - `LegacyAnnotate.CompleteFromComment` models that call.
- DeepCopySchema in both files is the identity, because a Schema is a value. The copystructure panic is not modelled.
- YAML decoding (formatYamlStr, yaml.Unmarshal) is foreign. A coerced scalar is `Yaml(text)`, and the decoded node tree is a parameter.
- JSON decoding and `strconv.ParseFloat` are foreign: they are the decoders of `Env`. The numeric bounds are kept as the text ParseFloat accepted. Of json.Unmarshal's own work, only the step that hands an UnmarshalJSON method the value without its surrounding whitespace is modelled (`Spec.JsonValueBytes`). Its syntax check of the whole input is left to the decoders, which reject the same text.
- Schema.MarshalJSON: the bytes of `swag.ConcatJSON` are not modelled, only the three parts in order. Marshalling errors are not modelled either.
- Values.AnyToBool: the source's third case, the boolean `true`, is left out, because every caller passes a string.
- The `fmt.Printf` of an undecodable `items` value (`schema/extenssion.go:406`) is I/O and is dropped. The model keeps the empty list.
- `Parser.Until` is not modelled: nothing calls it. The same goes for the unused `Options` record.
- Schema fields that the core never reads or writes are not modelled: `$ref`, `id`, `allOf`/`oneOf`/`anyOf`/`not`, the definitions, the dependencies, the xml and external docs. The same goes for the additional/pattern properties, the item counts, `multipleOf` and `readOnly`.
- The command-line driver (`cmd/helm-schema/schema.go`) and file I/O are not part of this model.

## Findings

| source | as written | input that shows it | evidently intended | confidence | as-written member | corrected member |
|---|---|---|---|---|---|---|
| schema/extenssion.go:133 | At the next `@` name, the raw text of the section ends at the cursor minus the name's length minus one. When the name runs to the end of the line, no terminator was read, and the cut falls one byte before the name. | `# @a @b`: the section `@a` starts at 5, and the cut is 4, so the slice is out of range and the parser panics | the raw text ends before the next name and never before the section's own start; here it is empty | not executed | Scanner.RawEndAsWritten, ScannerExamples.RawCutBeforeSectionStart | Scanner.RawEnd, Scanner.Body |
| schema/extenssion.go:349 | `@order` stores x-order into Extensions, which neither the mapper nor any handler allocates | any mapped schema whose head comment is `# @order 1`: a write to a nil map, which panics | allocate Extensions, then store x-order | not executed | Annotate.HandleOrderAsWritten, Mapper.OrderOnMappedSchema | Annotate.HandleOrder, Annotate.OrderAgrees |
| schema/i18n.go:96 | A localised section is appended to the list stored under its base name, and the result is stored under its locale | `# @title.zh A` and `# @description.zh B`: the zh variant gets only the description | each locale's list holds all of that locale's sections, in order | not executed | I18n.PartitionAsWritten, I18n.PartitionKeepsOnlyLast, I18n.FromCommentAsWritten | I18n.PartitionSections, I18n.PartitionIsFilter, I18n.SplitByLocale, I18n.FromComment |
| schema/i18n.go:35 | The node's own locale variants are deep-copied inside CompleteI18nFromComment (`:110-118`), before the children's originals are written back (`:57-63`). The comment at `:57` asks for the original to be fully updated before it is copied. | a parent `# @title.zh P` with one item `# @title B`: the original's item has title B, and the zh variant's item has title "" | clone each own variant from the original with the children written back | not executed | I18n.CompleteAsWritten, I18nExamples.OwnLocaleClonedBeforeWriteBack | I18n.Complete, I18n.ResolveVariant |
| schema/schema.go:303-307 | When the name read reaches the end of the line, the older parseSection rewinds onto it and starts the next section from the same position | `# @a @`: the lone `@` is read, the cursor goes back one byte, and the same `@` is read again for ever | the parser stops at the end of the line and gives the flag `@`, as the newer parser of `schema/extenssion.go` does | not executed | LegacyScanner.Body, LegacyExamples.TrailingAtNeverEnds | Scanner.Body, LegacyExamples.TrailingAtEndsInNewer |
