/**
 * The comment lines of schema/extenssion_test.go, evaluated by the model of the parser: first
 * the general shapes of a line (a lone name, a name and a value, a name, a value and an option,
 * two names), then the test lines as instances, and the line on which the source's cut of the raw
 * text falls before the section (see README, Findings).
 */
module ScannerExamples {
  import opened Scanner

  /** A comment of a single line is that line's sections. */
  lemma SingleLine(d: string)
    requires d != [] && '\n' !in d
    ensures CommentSections(d) == SectionsAt(d, 0)
  {
    assert NextLine(d) == (d, []);
  }

  /** With the cursor at the end of the line the section being filled is complete. */
  lemma BodyAtEnd(d: string, p: nat, sec: Section)
    requires p <= |d|
    ensures Body(d, p, |d|, sec) == [sec.(raw := d[p..])]
  {
    BodyEmptyStep(d, p, |d|, sec, ScanIdentity(d, |d|));
    assert d[p..|d|] == d[p..];
  }

  /** A fresh section once its value, options and raw text are filled in. */
  lemma NamedSection(name: string, value: string, opts: seq<SectionOption>, raw: string)
    ensures NewSection(name).(value := value, options := NewSection(name).options + opts, raw := raw)
         == Section(raw, name, value, opts)
  {
    assert [] + opts == opts;
  }

  /** Where the reads fall on `# @name`. */
  lemma NameOnlyScans(name: string)
    requires Word(name) && name[0] == '@'
    ensures var d := "# " + name;
            && '\n' !in d && SkipSeparators(d, 0) == 2
            && ScanIdentity(d, 2) == Scan(name, NoByte, false, |d|)
  {
    var d := "# " + name;
    assert d[2..] == name && d[2..2 + |name|] == name;
    WordAt(d, 2, name);
    assert d[0] == '#' && d[1] == ' ' && d[2] == '@';
    SkipsTo(d, 0, 2);
    BareToEnd(d, 2);
  }

  /** `# @name`: one section with no value, no option and empty raw text. */
  lemma NameOnly(name: string)
    requires Word(name) && name[0] == '@'
    ensures CommentSections("# " + name) == [Section("", name, "", [])]
  {
    var d := "# " + name;
    var sec := NewSection(name);
    assert CommentSections(d) == SectionsAt(d, 0) by {
      NameOnlyScans(name);
      SingleLine(d);
    }
    assert SectionsAt(d, 0) == Body(d, |d|, |d|, sec) by {
      NameOnlyScans(name);
      SectionsAtName(d, 0, 2, ScanIdentity(d, 2));
    }
    assert Body(d, |d|, |d|, sec) == [Section("", name, "", [])] by {
      BodyAtEnd(d, |d|, sec);
    }
  }

  /** Where the reads fall on `# @name value`. */
  lemma NameValueScans(name: string, value: string)
    requires Word(name) && name[0] == '@' && Word(value)
    ensures var d := "# " + name + " " + value;
            var a := 2 + |name|;
            && '\n' !in d && a + 1 < |d| && NameReads(d, a, name)
            && ScanIdentity(d, a + 1) == Scan(value, NoByte, false, |d|)
            && d[a + 1..] == value
  {
    var d := "# " + name + " " + value;
    var a := 2 + |name|;
    assert d[2..a] == name && d[a] == ' ' && d[a + 1..] == value && d[a + 1..a + 1 + |value|] == value;
    assert '\n' !in name && '\n' !in value;
    WordAt(d, 2, name);
    WordAt(d, a + 1, value);
    assert d[0] == '#' && d[1] == ' ' && d[2] == '@';
    SkipsTo(d, 0, 2);
    BareSpan(d, 2, a);
    BareToEnd(d, a + 1);
  }

  /** A one-line comment whose reads give a name and then a bare value running to its end. */
  lemma LineNameValue(d: string, a: nat, name: string, value: string)
    requires a + 1 < |d| && '\n' !in d && NameReads(d, a, name) && value != [] && value[0] != '@'
    requires ScanIdentity(d, a + 1) == Scan(value, NoByte, false, |d|)
    ensures CommentSections(d) == [Section(d[a + 1..], name, value, [])]
  {
    var sec := NewSection(name);
    var body := Body(d, a + 1, a + 1, sec);
    assert body == Body(d, a + 1, |d|, sec.(value := value)) by {
      BodyBareStep(d, a + 1, a + 1, sec, ScanIdentity(d, a + 1));
    }
    assert Body(d, a + 1, |d|, sec.(value := value)) == [Section(d[a + 1..], name, value, [])] by {
      BodyAtEnd(d, a + 1, sec.(value := value));
    }
    assert CommentSections(d) == body by {
      SingleLine(d);
      SectionsAtName(d, 0, 2, ScanIdentity(d, 2));
    }
  }

  /** `# @name value`: the bare token after the name is the value, and it is the raw text too. */
  lemma NameValue(name: string, value: string)
    requires Word(name) && name[0] == '@' && Word(value) && value[0] != '@'
    ensures CommentSections("# " + name + " " + value) == [Section(value, name, value, [])]
  {
    NameValueScans(name, value);
    LineNameValue("# " + name + " " + value, 2 + |name|, name, value);
  }

  /** Where the reads fall on `# @first @second`. */
  lemma TwoNamesScans(n1: string, n2: string)
    requires Word(n1) && n1[0] == '@' && Word(n2) && n2[0] == '@'
    ensures var d := "# " + n1 + " " + n2;
            var a := 2 + |n1|;
            && '\n' !in d && a + 1 < |d| && NameReads(d, a, n1)
            && ScanIdentity(d, a + 1) == Scan(n2, NoByte, false, |d|)
  {
    NameValueScans(n1, n2);
  }

  /** A one-line comment whose reads give a name and then a second name running to its end. */
  lemma LineTwoNames(d: string, a: nat, n1: string, n2: string)
    requires a + 1 < |d| == a + 1 + |n2| && '\n' !in d && NameReads(d, a, n1) && n2 != [] && n2[0] == '@'
    requires ScanIdentity(d, a + 1) == Scan(n2, NoByte, false, |d|)
    ensures CommentSections(d) == [Section("", n1, "", []), Section("", n2, "", [])]
  {
    var body := Body(d, a + 1, a + 1, NewSection(n1));
    assert body == [Section("", n1, "", [])] + Body(d, |d|, |d|, NewSection(n2)) by {
      BodyNameStep(d, a + 1, a + 1, NewSection(n1), ScanIdentity(d, a + 1));
      assert RawEnd(a + 1, n2, |d|) == a + 1 && d[a + 1..a + 1] == [];
    }
    assert Body(d, |d|, |d|, NewSection(n2)) == [Section("", n2, "", [])] by {
      BodyAtEnd(d, |d|, NewSection(n2));
    }
    assert CommentSections(d) == body by {
      SingleLine(d);
      SectionsAtName(d, 0, 2, ScanIdentity(d, 2));
    }
  }

  /**
   * `# @first @second`: two flag sections. The source cuts the first one's raw text one byte
   * before the second name starts, which lies before the first section's own raw text begins.
   */
  lemma TwoNames(n1: string, n2: string)
    requires Word(n1) && n1[0] == '@' && Word(n2) && n2[0] == '@'
    ensures RawEndAsWritten(n2, |"# " + n1 + " " + n2|) == 2 + |n1| < 3 + |n1|
    ensures CommentSections("# " + n1 + " " + n2) == [Section("", n1, "", []), Section("", n2, "", [])]
  {
    TwoNamesScans(n1, n2);
    LineTwoNames("# " + n1 + " " + n2, 2 + |n1|, n1, n2);
  }

  /** Where the reads fall on `# @name value option`. */
  lemma NameValueOptionScans(name: string, value: string, opt: string)
    requires Word(name) && name[0] == '@' && Word(value) && value[0] != '@' && Word(opt) && opt[0] != '@'
    ensures var d := "# " + name + " " + value + " " + opt;
            var a, b := 2 + |name|, 3 + |name| + |value|;
            && b + 1 < |d| && '\n' !in d && d[a + 1..] == value + " " + opt
            && NameReads(d, a, name) && ValueOptionReads(d, a + 1, b + 1, value, opt)
  {
    var d := "# " + name + " " + value + " " + opt;
    var a := 2 + |name|;
    var b := a + 1 + |value|;
    NameValueOptionLayout(name, value, opt);
    WordAt(d, 2, name);
    WordAt(d, a + 1, value);
    WordAt(d, b + 1, opt);
    SkipsTo(d, 0, 2);
    BareSpan(d, 2, a);
    BareSpan(d, a + 1, b);
    BareToEnd(d, b + 1);
  }

  /** Where the parts of `# @name value option` lie. */
  lemma NameValueOptionLayout(name: string, value: string, opt: string)
    requires Word(name) && Word(value) && Word(opt)
    ensures var d := "# " + name + " " + value + " " + opt;
            var a, b := 2 + |name|, 3 + |name| + |value|;
            && |d| == b + 1 + |opt| && '\n' !in d && d[0] == '#' && d[1] == ' '
            && d[2..a] == name && d[a] == ' ' && d[a + 1..b] == value && d[b] == ' ' && d[b + 1..] == opt
            && d[2..2 + |name|] == name && d[a + 1..a + 1 + |value|] == value && d[b + 1..b + 1 + |opt|] == opt
            && d[a + 1..] == value + " " + opt
  {
    var d := "# " + name + " " + value + " " + opt;
    var a := 2 + |name|;
    var b := a + 1 + |value|;
    assert '\n' !in name && '\n' !in value && '\n' !in opt;
    assert d == "# " + name + " " + value + " " + opt;
    assert d[a + 1..] == value + " " + opt;
  }

  /** A one-line comment whose reads give a name, a bare value and a bare option running to its end. */
  lemma LineValueOption(d: string, a: nat, b: nat, name: string, value: string, opt: string)
    requires 2 <= a < b < |d| && '\n' !in d && NameReads(d, a, name) && ValueOptionReads(d, a + 1, b + 1, value, opt)
    ensures CommentSections(d) == [Section(d[a + 1..], name, value, [SectionOption(opt, "")])]
  {
    var body := Body(d, a + 1, a + 1, NewSection(name));
    assert body == [Section(d[a + 1..], name, value, [SectionOption(opt, "")])] by {
      BodyValueOption(d, a + 1, b + 1, NewSection(name), value, opt);
      NamedSection(name, value, [SectionOption(opt, "")], d[a + 1..]);
    }
    assert CommentSections(d) == body by {
      SingleLine(d);
      SectionsAtName(d, 0, 2, ScanIdentity(d, 2));
    }
  }

  /** The line's separators end at 2, where a name runs up to the space at `a`. */
  predicate NameReads(d: string, a: nat, name: string)
  {
    2 <= a < |d| && SkipSeparators(d, 0) == 2 && name != [] && name[0] == '@'
    && ScanIdentity(d, 2) == Scan(name, ' ', true, a + 1)
  }

  /** From `p` a bare value ends at the space before `q`, and from `q` a bare option runs to the end. */
  predicate ValueOptionReads(d: string, p: nat, q: nat, value: string, opt: string)
  {
    p <= q <= |d| && value != [] && value[0] != '@' && opt != [] && opt[0] != '@'
    && ScanIdentity(d, p) == Scan(value, ' ', true, q) && ScanIdentity(d, q) == Scan(opt, NoByte, false, |d|)
  }

  /** A section body made of a bare value and a bare option that runs to the end of the line. */
  lemma BodyValueOption(d: string, p: nat, q: nat, sec: Section, value: string, opt: string)
    requires ValueOptionReads(d, p, q, value, opt) && sec.value == []
    ensures Body(d, p, p, sec)
         == [sec.(value := value, options := sec.options + [SectionOption(opt, "")], raw := d[p..])]
  {
    BodyBareStep(d, p, p, sec, ScanIdentity(d, p));
    var s1 := sec.(value := value);
    BodyBareStep(d, p, q, s1, ScanIdentity(d, q));
    var s2 := s1.(options := s1.options + [SectionOption(opt, "")]);
    BodyAtEnd(d, p, s2);
  }

  /**
   * `# @name value option`: the first bare token is the value, a later one an option with an empty
   * value, and raw is everything after the name and its space (the test line
   * `# @description PITR(Point-in-Time Recovery)` is one such line).
   */
  lemma NameValueOption(name: string, value: string, opt: string)
    requires Word(name) && name[0] == '@'
    requires Word(value) && value[0] != '@' && Word(opt) && opt[0] != '@'
    ensures CommentSections("# " + name + " " + value + " " + opt)
         == [Section(value + " " + opt, name, value, [SectionOption(opt, "")])]
  {
    NameValueOptionScans(name, value, opt);
    LineValueOption("# " + name + " " + value + " " + opt, 2 + |name|, 3 + |name| + |value|, name, value, opt);
  }

  /** The first clause's body: a quoted value, then the next name, before which its raw text stops. */
  lemma BodyQuotedThenName(d: string, p: nat, q: nat, c: nat, n1: string, v1: string, n2: string)
    requires p < q < c <= |d| && v1 != [] && v1[0] != '@' && n2 != [] && n2[0] == '@'
    requires ScanIdentity(d, p) == Scan(v1, '"', true, q)
    requires ScanIdentity(d, q) == Scan(n2, ' ', true, c) && c - |n2| - 1 == q + 1
    ensures Body(d, p, p, NewSection(n1))
         == [Section(d[p..q + 1], n1, v1, [])] + Body(d, c, c, NewSection(n2))
  {
    BodyBareStep(d, p, p, NewSection(n1), ScanIdentity(d, p));
    var t := NewSection(n1).(value := v1);
    BodyNameStep(d, p, q, t, ScanIdentity(d, q));
    assert RawEnd(p, n2, c) == q + 1;
  }

  /** The flag line of the tests. */
  lemma ExampleFlag()
    ensures CommentSections("# @readyOnly") == [Section("", "@readyOnly", "", [])]
  {
    assert "# " + "@readyOnly" == "# @readyOnly";
    assert Word("@readyOnly");
    NameOnly("@readyOnly");
  }

  /** A bare value keeps its dots. */
  lemma ExampleEnumValue()
    ensures CommentSections("# @enum 8.0.30") == [Section("8.0.30", "@enum", "8.0.30", [])]
  {
    assert "# " + "@enum" + " " + "8.0.30" == "# @enum 8.0.30";
    assert Word("@enum") && Word("8.0.30");
    NameValue("@enum", "8.0.30");
  }

  /** A title line. */
  lemma ExampleTitle()
    ensures CommentSections("# @title B") == [Section("B", "@title", "B", [])]
  {
    assert "# " + "@title" + " " + "B" == "# @title B";
    assert Word("@title") && Word("B");
    NameValue("@title", "B");
  }

  /** A localised title line: the locale suffix is part of the section's name. */
  lemma ExampleLocalisedTitle()
    ensures CommentSections("# @title.zh P") == [Section("P", "@title.zh", "P", [])]
  {
    assert "# " + "@title.zh" + " " + "P" == "# @title.zh P";
    assert Word("@title.zh") && Word("P");
    NameValue("@title.zh", "P");
  }

  /**
   * A value with parentheses and dashes, then an option with an empty value: the test line
   * `# @description PITR(Point-in-Time Recovery)`, written as the concatenation of its parts.
   */
  lemma ExampleDescription()
    ensures CommentSections("# " + "@description" + " " + "PITR(Point-in-Time" + " " + "Recovery)")
         == [Section("PITR(Point-in-Time" + " " + "Recovery)", "@description", "PITR(Point-in-Time",
                     [SectionOption("Recovery)", "")])]
  {
    assert Word("@description") && Word("PITR(Point-in-Time") && Word("Recovery)");
    NameValueOption("@description", "PITR(Point-in-Time", "Recovery)");
  }

  /** A quoted word: `w` between two double quotes from `p`, with no double quote inside. */
  lemma QuotedAt(d: string, p: nat, w: string)
    requires p + |w| + 1 < |d| && d[p] == '"' && d[p + 1..p + 1 + |w|] == w && d[p + 1 + |w|] == '"' && '"' !in w
    ensures ScanIdentity(d, p) == Scan(w, '"', true, p + |w| + 2)
  {
    forall m | p < m < p + 1 + |w| ensures d[m] != '"' {
      assert d[m] == w[m - p - 1];
    }
    QuotedSpan(d, p, p + 1 + |w|);
  }

  /** A bare word `w` from `p`, ended by the byte after it. */
  lemma BareAt(d: string, p: nat, w: string)
    requires p + |w| < |d| && d[p..p + |w|] == w && Word(w) && EndsBare(d[p + |w|])
    ensures ScanIdentity(d, p) == Scan(w, d[p + |w|], true, p + |w| + 1)
  {
    WordAt(d, p, w);
    BareSpan(d, p, p + |w|);
  }

  /** The text from `o` starts with `w`: `w` lies at `o`, and the rest follows it. */
  lemma Peel(d: string, o: nat, w: string, rest: string)
    requires o <= |d| && d[o..] == w + rest
    ensures o + |w| <= |d| && d[o..o + |w|] == w && d[o + |w|..] == rest
    ensures |w| > 0 ==> d[o] == w[0]
    ensures |w| > 1 ==> d[o + 1] == w[1]
    ensures |rest| > 0 ==> d[o + |w|] == rest[0]
  {
    assert d[o..][..|w|] == w;
    if |w| > 1 {
      assert d[o..][1] == w[1];
    }
    if |rest| > 0 {
      assert d[o..][|w|] == rest[0];
    }
  }

  /** A `;` read with no token before it. */
  lemma SemicolonAt(d: string, p: nat)
    requires p < |d| && d[p] == ';'
    ensures ScanIdentity(d, p) == Scan([], ';', true, p + 1)
  {
  }

  /** `## ;;; t "a" x k1="w1";k2="w2"`: a name, a quoted value, a name and two quoted options. */
  function QuotedLine(t: string, a: string, x: string, k1: string, w1: string, k2: string, w2: string): string
  {
    "## ;;; " + (t + (" " + ("\"" + (a + ("\"" + (" " + (x + (" " + QuotedOptions(k1, w1, k2, w2)))))))))
  }

  /** `k1="w1";k2="w2"`: two options with quoted values. */
  function QuotedOptions(k1: string, w1: string, k2: string, w2: string): string
  {
    k1 + ("=\"" + (w1 + ("\"" + (";" + (k2 + ("=\"" + (w2 + ("\"" + []))))))))
  }

  /** The words of a QuotedLine: two names, a quoted value, two bare keys and two quoted values. */
  predicate QuotedWords(t: string, a: string, x: string, k1: string, w1: string, k2: string, w2: string)
  {
    && Word(t) && t[0] == '@' && Word(x) && x[0] == '@' && a != [] && a[0] != '@' && '"' !in a && '\n' !in a
    && Word(k1) && k1[0] != '@' && Word(k2) && k2[0] != '@' && '"' !in w1 && '\n' !in w1 && '"' !in w2 && '\n' !in w2
  }

  /** From `p`: a name, a space and a quoted value; the reads of the two, and what follows. */
  lemma NameThenQuoted(d: string, p: nat, t: string, a: string, rest: string)
    requires Word(t) && '"' !in a && p <= |d| && d[p..] == t + (" " + ("\"" + (a + ("\"" + rest))))
    ensures var q := p + |t| + 1;
            var e := q + |a| + 2;
            && e <= |d| && d[e..] == rest && d[q..] == "\"" + (a + ("\"" + rest))
            && ScanIdentity(d, p) == Scan(t, ' ', true, q) && ScanIdentity(d, q) == Scan(a, '"', true, e)
  {
    var q := p + |t| + 1;
    Peel(d, p, t, " " + ("\"" + (a + ("\"" + rest))));
    Peel(d, p + |t|, " ", "\"" + (a + ("\"" + rest)));
    BareAt(d, p, t);
    QuotedThen(d, q, a, rest);
  }

  /** From `q`: a quoted value; its read, and what follows. */
  lemma QuotedThen(d: string, q: nat, a: string, rest: string)
    requires '"' !in a && q <= |d| && d[q..] == "\"" + (a + ("\"" + rest))
    ensures q + |a| + 2 <= |d| && d[q + |a| + 2..] == rest
    ensures ScanIdentity(d, q) == Scan(a, '"', true, q + |a| + 2)
  {
    Peel(d, q, "\"", a + ("\"" + rest));
    Peel(d, q + 1, a, "\"" + rest);
    Peel(d, q + 1 + |a|, "\"", rest);
    QuotedAt(d, q, a);
  }

  /** From `p`: a key, `=` and a quoted value; the reads of the two, and what follows. */
  lemma KeyThenQuoted(d: string, p: nat, k: string, w: string, rest: string)
    requires Word(k) && '"' !in w && p <= |d| && d[p..] == k + ("=\"" + (w + ("\"" + rest)))
    ensures var q := p + |k| + 1;
            var e := q + |w| + 2;
            && e <= |d| && d[e..] == rest
            && ScanIdentity(d, p) == Scan(k, '=', true, q) && ScanIdentity(d, q) == Scan(w, '"', true, e)
  {
    var q := p + |k| + 1;
    Peel(d, p, k, "=\"" + (w + ("\"" + rest)));
    Peel(d, p + |k|, "=", "\"" + (w + ("\"" + rest)));
    BareAt(d, p, k);
    QuotedThen(d, q, w, rest);
  }

  /** From `p`: a key, `=` and a quoted value make one option of the section being filled. */
  lemma BodyKeyQuoted(d: string, startpos: nat, p: nat, e: nat, sec: Section, k: string, w: string, rest: string)
    requires Word(k) && k[0] != '@' && '"' !in w && startpos <= p <= |d| && d[p..] == k + ("=\"" + (w + ("\"" + rest)))
    requires e == p + |k| + |w| + 3
    ensures && e <= |d| && d[e..] == rest
            && Body(d, startpos, p, sec) == Body(d, startpos, e, sec.(options := sec.options + [SectionOption(k, w)]))
  {
    KeyThenQuoted(d, p, k, w, rest);
    BodyOptionStep(d, startpos, p, sec, ScanIdentity(d, p), ScanIdentity(d, p + |k| + 1));
  }

  /** A `;` between two options is skipped. */
  lemma BodySemicolon(d: string, startpos: nat, p: nat, q: nat, sec: Section, rest: string)
    requires startpos <= p <= |d| && d[p..] == ";" + rest && q == p + 1
    ensures q <= |d| && d[q..] == rest && Body(d, startpos, p, sec) == Body(d, startpos, q, sec)
  {
    Peel(d, p, ";", rest);
    SemicolonAt(d, p);
    BodyEmptyStep(d, startpos, p, sec, ScanIdentity(d, p));
  }

  /** The first option of a QuotedLine and the `;` after it. */
  lemma BodyFirstOption(d: string, c: nat, f: nat, sec: Section, k1: string, w1: string, rest: string)
    requires Word(k1) && k1[0] != '@' && '"' !in w1
    requires c <= |d| && d[c..] == k1 + ("=\"" + (w1 + ("\"" + (";" + rest)))) && f == c + |k1| + |w1| + 4
    ensures && f <= |d| && d[f..] == rest
            && Body(d, c, c, sec) == Body(d, c, f, sec.(options := sec.options + [SectionOption(k1, w1)]))
  {
    var e := c + |k1| + |w1| + 3;
    BodyKeyQuoted(d, c, c, e, sec, k1, w1, ";" + rest);
    BodySemicolon(d, c, e, f, sec.(options := sec.options + [SectionOption(k1, w1)]), rest);
  }

  /** The last option of a QuotedLine, which ends the line. */
  lemma BodyLastOption(d: string, c: nat, p: nat, sec: Section, k2: string, w2: string)
    requires Word(k2) && k2[0] != '@' && '"' !in w2
    requires c <= p <= |d| && d[p..] == k2 + ("=\"" + (w2 + ("\"" + [])))
    ensures Body(d, c, p, sec) == [sec.(options := sec.options + [SectionOption(k2, w2)], raw := d[c..])]
  {
    BodyKeyQuoted(d, c, p, p + |k2| + |w2| + 3, sec, k2, w2, []);
    BodyAtEnd(d, c, sec.(options := sec.options + [SectionOption(k2, w2)]));
  }

  /** The options of a QuotedLine, from `c` to the end: a section with the two options and no value. */
  lemma BodyQuotedOptions(d: string, c: nat, x: string, k1: string, w1: string, k2: string, w2: string)
    requires Word(k1) && k1[0] != '@' && Word(k2) && k2[0] != '@' && '"' !in w1 && '"' !in w2
    requires c <= |d| && d[c..] == QuotedOptions(k1, w1, k2, w2)
    ensures Body(d, c, c, NewSection(x)) == [Section(QuotedOptions(k1, w1, k2, w2), x, "", [SectionOption(k1, w1), SectionOption(k2, w2)])]
  {
    var x0 := NewSection(x);
    var x1 := x0.(options := x0.options + [SectionOption(k1, w1)]);
    var f := c + |k1| + |w1| + 4;
    BodyFirstOption(d, c, f, x0, k1, w1, k2 + ("=\"" + (w2 + ("\"" + []))));
    BodyLastOption(d, c, f, x1, k2, w2);
    assert x1.options + [SectionOption(k2, w2)] == [SectionOption(k1, w1), SectionOption(k2, w2)];
  }

  /** From `p`: a space, a name and a space; the read of the name, and what follows. */
  lemma SpacedName(d: string, p: nat, x: string, rest: string)
    requires Word(x) && p <= |d| && d[p..] == " " + (x + (" " + rest))
    ensures p + |x| + 2 <= |d| && d[p + |x| + 2..] == rest
    ensures ScanIdentity(d, p) == Scan(x, ' ', true, p + |x| + 2)
  {
    Peel(d, p, " ", x + (" " + rest));
    Peel(d, p + 1, x, " " + rest);
    Peel(d, p + 1 + |x|, " ", rest);
    assert d[p + 1] == x[0];
    LeadingSpaces(d, p, p + 1);
    BareAt(d, p + 1, x);
  }

  /** A quoted value and the space after it, from `q`. */
  lemma QuotedRaw(d: string, q: nat, a: string, rest: string)
    requires q <= |d| && d[q..] == "\"" + (a + ("\"" + (" " + rest)))
    ensures q + |a| + 3 <= |d| && d[q..q + |a| + 3] == "\"" + a + "\" "
  {
    assert "\"" + (a + ("\"" + (" " + rest))) == ("\"" + a + "\" ") + rest;
    Peel(d, q, "\"" + a + "\" ", rest);
  }

  /** The separators that open a QuotedLine. */
  lemma Separators(d: string)
    requires 7 < |d| && d[..7] == "## ;;; " && d[7] != '#' && d[7] != ';' && d[7] != ' '
    ensures SkipSeparators(d, 0) == 7
  {
    assert d[0] == '#' && d[1] == '#' && d[2] == ' ' && d[3] == ';' && d[4] == ';' && d[5] == ';' && d[6] == ' ' by {
      assert d[..7][0] == d[0] && d[..7][6] == d[6];
    }
    SkipsTo(d, 0, 7);
  }

  /** Where the reads fall on the head of a QuotedLine up to its quoted value, and what follows. */
  lemma QuotedHeadScans(d: string, t: string, a: string, more: string)
    requires Word(t) && t[0] == '@' && '"' !in a
    requires 7 <= |d| && d[..7] == "## ;;; " && d[7..] == t + (" " + ("\"" + (a + ("\"" + more))))
    ensures var pa := 8 + |t|;
            && pa + |a| + 2 <= |d| && d[pa + |a| + 2..] == more && d[pa..] == "\"" + (a + ("\"" + more))
            && SkipSeparators(d, 0) == 7
            && ScanIdentity(d, 7) == Scan(t, ' ', true, pa)
            && ScanIdentity(d, pa) == Scan(a, '"', true, pa + |a| + 2)
  {
    NameThenQuoted(d, 7, t, a, more);
    assert d[7] == t[0] by {
      assert d[7..][0] == d[7];
    }
    Separators(d);
  }

  /**
   * A line whose first section is a name `t` with a value read up to `q`, followed by the name
   * `x`: the first section's raw text runs from after `t` to just before `x`.
   */
  lemma SectionsNameQuotedName(d: string, p: nat, q: nat, c: nat, t: string, a: string, x: string)
    requires 7 < p < q < c <= |d| && t != [] && t[0] == '@' && a != [] && a[0] != '@' && x != [] && x[0] == '@'
    requires SkipSeparators(d, 0) == 7 && ScanIdentity(d, 7) == Scan(t, ' ', true, p)
    requires ScanIdentity(d, p) == Scan(a, '"', true, q)
    requires ScanIdentity(d, q) == Scan(x, ' ', true, c) && c - |x| - 1 == q + 1
    ensures SectionsAt(d, 0) == [Section(d[p..q + 1], t, a, [])] + Body(d, c, c, NewSection(x))
  {
    SectionsAtName(d, 0, 7, ScanIdentity(d, 7));
    BodyQuotedThenName(d, p, q, c, t, a, x);
  }

  /** A QuotedLine holds no line break when its words hold none. */
  lemma QuotedLineOneLine(t: string, a: string, x: string, k1: string, w1: string, k2: string, w2: string)
    requires QuotedWords(t, a, x, k1, w1, k2, w2)
    ensures '\n' !in QuotedLine(t, a, x, k1, w1, k2, w2)
  {
    assert '\n' !in t && '\n' !in x && '\n' !in k1 && '\n' !in k2;
    assert '\n' !in QuotedOptions(k1, w1, k2, w2);
  }

  /**
   * A line whose reads fall as on a QuotedLine, with `raw` between its first name and its second,
   * and whose second name opens a section `second` that ends the line: the sections are the
   * quoted one, then `second`.
   */
  lemma QuotedLineSectionsAt(d: string, pa: nat, px: nat, pk: nat, t: string, a: string, x: string, raw: string, second: Section)
    requires 7 < pa < px - 1 && pk == px + |x| + 1 <= |d| && d[pa..px] == raw
    requires t != [] && t[0] == '@' && a != [] && a[0] != '@' && x != [] && x[0] == '@'
    requires SkipSeparators(d, 0) == 7 && ScanIdentity(d, 7) == Scan(t, ' ', true, pa)
    requires ScanIdentity(d, pa) == Scan(a, '"', true, px - 1)
    requires ScanIdentity(d, px - 1) == Scan(x, ' ', true, pk)
    requires Body(d, pk, pk, NewSection(x)) == [second]
    ensures SectionsAt(d, 0) == [Section(raw, t, a, []), second]
  {
    SectionsNameQuotedName(d, pa, px - 1, pk, t, a, x);
  }

  /** A QuotedLine is its separators, then the rest of the line. */
  lemma QuotedLineParts(t: string, a: string, x: string, k1: string, w1: string, k2: string, w2: string)
    ensures var d := QuotedLine(t, a, x, k1, w1, k2, w2);
            && 7 <= |d| && d[..7] == "## ;;; "
            && d[7..] == t + (" " + ("\"" + (a + ("\"" + (" " + (x + (" " + QuotedOptions(k1, w1, k2, w2))))))))
  {
    var d := QuotedLine(t, a, x, k1, w1, k2, w2);
    Peel(d, 0, "## ;;; ", t + (" " + ("\"" + (a + ("\"" + (" " + (x + (" " + QuotedOptions(k1, w1, k2, w2)))))))));
  }

  /**
   * Where the reads fall on a QuotedLine, and the raw texts of its two sections: the quoted value
   * starts at `pa`, the second name at `px` and the options at `pk`.
   */
  lemma QuotedLineScans(t: string, a: string, x: string, k1: string, w1: string, k2: string, w2: string, pa: nat, px: nat, pk: nat)
    requires QuotedWords(t, a, x, k1, w1, k2, w2)
    requires pa == 8 + |t| && px == pa + |a| + 3 && pk == px + |x| + 1
    ensures var d := QuotedLine(t, a, x, k1, w1, k2, w2);
            && pk <= |d| && d[pa..px] == "\"" + a + "\" " && d[pk..] == QuotedOptions(k1, w1, k2, w2)
            && SkipSeparators(d, 0) == 7 && ScanIdentity(d, 7) == Scan(t, ' ', true, pa)
            && ScanIdentity(d, pa) == Scan(a, '"', true, px - 1)
            && ScanIdentity(d, px - 1) == Scan(x, ' ', true, pk)
  {
    var d := QuotedLine(t, a, x, k1, w1, k2, w2);
    var o := QuotedOptions(k1, w1, k2, w2);
    var more := " " + (x + (" " + o));
    QuotedLineParts(t, a, x, k1, w1, k2, w2);
    QuotedHeadScans(d, t, a, more);
    SpacedName(d, px - 1, x, o);
    QuotedRaw(d, pa, a, x + (" " + o));
  }

  /** The sections of any text whose reads fall as on a QuotedLine. */
  lemma QuotedLineSectionsOf(d: string, t: string, a: string, x: string, k1: string, w1: string, k2: string, w2: string, pa: nat, px: nat, pk: nat)
    requires QuotedWords(t, a, x, k1, w1, k2, w2)
    requires pa == 8 + |t| && px == pa + |a| + 3 && pk == px + |x| + 1
    requires pk <= |d| && d[pa..px] == "\"" + a + "\" " && d[pk..] == QuotedOptions(k1, w1, k2, w2)
    requires SkipSeparators(d, 0) == 7 && ScanIdentity(d, 7) == Scan(t, ' ', true, pa)
    requires ScanIdentity(d, pa) == Scan(a, '"', true, px - 1)
    requires ScanIdentity(d, px - 1) == Scan(x, ' ', true, pk)
    ensures SectionsAt(d, 0)
         == [Section("\"" + a + "\" ", t, a, []),
             Section(QuotedOptions(k1, w1, k2, w2), x, "", [SectionOption(k1, w1), SectionOption(k2, w2)])]
  {
    var second := Section(QuotedOptions(k1, w1, k2, w2), x, "", [SectionOption(k1, w1), SectionOption(k2, w2)]);
    BodyQuotedOptions(d, pk, x, k1, w1, k2, w2);
    QuotedLineSectionsAt(d, pa, px, pk, t, a, x, "\"" + a + "\" ", second);
  }

  /**
   * A QuotedLine holds two sections: the first name with the quoted value, whose raw text is the
   * quoted value and the space after it, and the second name with the two options and no value,
   * whose raw text is the options.
   */
  lemma QuotedLineSections(t: string, a: string, x: string, k1: string, w1: string, k2: string, w2: string)
    requires QuotedWords(t, a, x, k1, w1, k2, w2)
    ensures CommentSections(QuotedLine(t, a, x, k1, w1, k2, w2))
         == [Section("\"" + a + "\" ", t, a, []),
             Section(QuotedOptions(k1, w1, k2, w2), x, "", [SectionOption(k1, w1), SectionOption(k2, w2)])]
  {
    var d := QuotedLine(t, a, x, k1, w1, k2, w2);
    var pa := 8 + |t|;
    var px := pa + |a| + 3;
    var pk := px + |x| + 1;
    QuotedLineScans(t, a, x, k1, w1, k2, w2, pa, px, pk);
    QuotedLineSectionsOf(d, t, a, x, k1, w1, k2, w2, pa, px, pk);
    QuotedLineOneLine(t, a, x, k1, w1, k2, w2);
    SingleLine(d);
  }

  /**
   * The test line `## ;;; @title "Architecture" @x-enum single="Single";cluster="Cluster Mode"`:
   * a title whose raw text is the quoted value and the space after it, then an x-enum section with
   * two options and no value, whose raw text runs to the end of the line.
   */
  lemma ExampleArchitecture()
    ensures CommentSections(Architecture)
         == [Section("\"" + "Architecture" + "\" ", "@title", "Architecture", []),
             Section(QuotedOptions("single", "Single", "cluster", "Cluster Mode"), "@x-enum", "",
                     [SectionOption("single", "Single"), SectionOption("cluster", "Cluster Mode")])]
  {
    assert QuotedWords("@title", "Architecture", "@x-enum", "single", "Single", "cluster", "Cluster Mode");
    QuotedLineSections("@title", "Architecture", "@x-enum", "single", "Single", "cluster", "Cluster Mode");
  }

  /** The test line `## ;;; @title "Architecture" @x-enum single="Single";cluster="Cluster Mode"`. */
  const Architecture: string := QuotedLine("@title", "Architecture", "@x-enum", "single", "Single", "cluster", "Cluster Mode")

  /**
   * On `# @a @b` the source cuts the first section's raw text at position 4, before the section's
   * first byte at 5 (a slice out of range); the model cuts at 5 and gives two flag sections.
   */
  lemma RawCutBeforeSectionStart()
    ensures ScanIdentity("# @a @b", 5) == Scan("@b", NoByte, false, 7)
    ensures RawEndAsWritten("@b", 7) == 4 < 5
    ensures CommentSections("# @a @b") == [Section("", "@a", "", []), Section("", "@b", "", [])]
  {
    assert "# " + "@a" + " " + "@b" == "# @a @b";
    assert Word("@a") && Word("@b");
    TwoNamesScans("@a", "@b");
    TwoNames("@a", "@b");
  }
}
