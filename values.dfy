/**
 * The untyped values (Go's `any`) that annotations store into a schema, and the conversions
 * schema/extenssion.go applies to annotation text before storing it.
 *
 * YAML and JSON decoding are foreign: a coerced scalar is kept symbolically as the text it was
 * decoded from (`Yaml`, `Json`), so the model says which text was decoded and never what the
 * decoder produced. Decimal integer parsing (strconv.ParseInt with base 10 and 64 bits) is
 * written out in full.
 */
module Values {
  import opened Wrappers

  /** One entry of a `hidden` rule: show or hide a field depending on the value at `path`. */
  datatype Cond = Cond(path: string, value: Value)

  datatype Value =
    | Nil                                           // Go's nil
    | Str(s: string)                                // a string stored verbatim
    | Yaml(src: string)                             // the YAML scalar `key: src` decodes to
    | Json(src: string)                             // the JSON value `src` decodes to
    | Fields(fields: map<string, Value>)            // a map[string]any built by a handler
    | List(elems: seq<Value>)                       // a slice built by a handler
    | Condition(cond: Cond)                         // a single HiddenCondition
    | Hidden(operator: string, conds: seq<Cond>)    // HiddenProps{Operator, Conditions}

  /**
   * formatYamlStr: the empty string is nil; any other text is the value YAML gives it as the
   * value of a key (a number, a boolean, a string, ...), or the text itself if YAML rejects it;
   * both are the foreign decoder's answer, kept here as `Yaml(str)`.
   */
  function Coerce(str: string): (r: Value)
    ensures r == Nil <==> str == []
    ensures r != Nil ==> r == Yaml(str)
  {
    if str == [] then Nil else Yaml(str)
  }

  /**
   * formatExtraValue: the empty string is nil; text opening with '{' or '[' is the decoded JSON
   * value when `isJson` accepts it and the text itself otherwise; anything else is coerced as YAML.
   */
  function FormatExtraValue(v: string, isJson: string -> bool): (r: Value)
    ensures r == Nil <==> v == []
    ensures v != [] && (v[0] == '{' || v[0] == '[') ==> r == (if isJson(v) then Json(v) else Str(v))
    ensures v != [] && v[0] != '{' && v[0] != '[' ==> r == Yaml(v)
  {
    if v == [] then Nil
    else if v[0] == '{' || v[0] == '[' then (if isJson(v) then Json(v) else Str(v))
    else Coerce(v)
  }

  /**
   * anyToBool on the strings annotations pass: only "true" and "1" are true (the source's third
   * case, the boolean true, is never passed).
   */
  function AnyToBool(v: string): (r: bool)
    ensures r <==> v in {"true", "1"}
  {
    v == "true" || v == "1"
  }

  const MinInt64: int := -0x8000_0000_0000_0000
  const MaxInt64: int := 0x7FFF_FFFF_FFFF_FFFF

  predicate IsDigit(c: char)
  {
    '0' <= c <= '9'
  }

  predicate AllDigits(s: string)
  {
    forall k | 0 <= k < |s| :: IsDigit(s[k])
  }

  /** The number a run of decimal digits denotes, most significant digit first. */
  function DigitsValue(s: string): (n: nat)
    requires AllDigits(s)
  {
    if s == [] then 0 else 10 * DigitsValue(s[..|s| - 1]) + (s[|s| - 1] as int - '0' as int)
  }

  /**
   * strconv.ParseInt(s, 10, 64): an optional '+' or '-', then at least one decimal digit and
   * nothing else; the value must fit in 64 bits. Anything else is an error (None).
   */
  function ParseInt(s: string): (r: Option<int>)
    ensures r.Some? ==> MinInt64 <= r.value <= MaxInt64
  {
    var neg := s != [] && s[0] == '-';
    var digits := if s != [] && (s[0] == '-' || s[0] == '+') then s[1..] else s;
    if digits == [] || !AllDigits(digits) then None
    else
      var n: int := if neg then -(DigitsValue(digits) as int) else DigitsValue(digits);
      if MinInt64 <= n <= MaxInt64 then Some(n) else None
  }

  /** The decimal digits of `n`, without leading zeros (strconv.FormatUint in base 10). */
  function DigitsOf(n: nat): (s: string)
    ensures s != [] && AllDigits(s)
    ensures |s| > 1 ==> s[0] != '0'
  {
    if n < 10 then [('0' as int + n) as char]
    else DigitsOf(n / 10) + [('0' as int + n % 10) as char]
  }

  /** strconv.FormatInt(n, 10). */
  function FormatInt(n: int): (s: string)
    ensures s != [] && (s[0] == '-' <==> n < 0)
  {
    if n < 0 then "-" + DigitsOf(-n) else DigitsOf(n)
  }

  lemma {:induction false} DigitsRoundTrip(n: nat)
    ensures DigitsValue(DigitsOf(n)) == n
  {
    if n >= 10 {
      DigitsRoundTrip(n / 10);
      var s := DigitsOf(n);
      assert s[..|s| - 1] == DigitsOf(n / 10);
    }
  }

  /** Every 64-bit integer survives FormatInt followed by ParseInt. */
  lemma ParseFormatInt(n: int)
    requires MinInt64 <= n <= MaxInt64
    ensures ParseInt(FormatInt(n)) == Some(n)
  {
    var s := FormatInt(n);
    if n < 0 {
      var d := DigitsOf(-n);
      DigitsRoundTrip(-n);
      assert s == "-" + d;
      assert s[0] == '-' && s[1..] == d;
      assert ParseInt(s) == Some(-(DigitsValue(d) as int));
    } else {
      var d := DigitsOf(n);
      DigitsRoundTrip(n);
      assert s == d && d[0] != '-';
      if d[0] == '+' {
        assert false;
      }
      assert ParseInt(s) == Some(DigitsValue(d) as int);
    }
  }

  /** Text holding a byte that is neither a digit nor a leading sign is malformed. */
  lemma ParseIntRejectsNonDigit(s: string, k: nat)
    requires 0 < k < |s| && !IsDigit(s[k])
    ensures ParseInt(s) == None
  {
    var digits := if s[0] == '-' || s[0] == '+' then s[1..] else s;
    if s[0] == '-' || s[0] == '+' {
      assert digits[k - 1] == s[k];
    } else {
      assert digits[k] == s[k];
    }
  }

  /** A value one past the largest 64-bit integer is out of range. */
  lemma ParseIntOverflow()
    ensures ParseInt(FormatInt(MaxInt64 + 1)) == None
  {
    DigitsRoundTrip(MaxInt64 + 1);
  }
}
