/**
 * Comment lines on which the older parser of schema/schema.go and the newer one of
 * schema/extenssion.go disagree: a lone flag, bare words after a name, and a line ending in a
 * lone `@`.
 */
module LegacyExamples {
  import opened Wrappers
  import opened Text
  import opened Scanner
  import opened ScannerExamples
  import LegacyScanner

  /** A comment of a single line is that line's sections, for the older parser too. */
  lemma LegacySingleLine(d: string)
    requires d != [] && '\n' !in d
    ensures LegacyScanner.CommentSections(d) == LegacyScanner.SectionsAt(d, 0)
  {
    assert NextLine(d) == (d, []);
    assert LegacyScanner.CommentSections([]) == Some([]);
    match LegacyScanner.SectionsAt(d, 0) {
      case None =>
      case Some(these) => assert these + [] == these;
    }
  }

  /** `# @readyOnly`: the older parser drops the flag, the newer one keeps it. */
  lemma FlagDropped()
    ensures LegacyScanner.CommentSections("# @readyOnly") == Some([])
    ensures CommentSections("# @readyOnly") == [Section("", "@readyOnly", "", [])]
  {
    var d := "# @readyOnly";
    assert "# " + "@readyOnly" == d;
    assert Word("@readyOnly");
    NameOnlyScans("@readyOnly");
    LegacyScanner.NameAtEndOfLine(d, 0);
    LegacySingleLine(d);
    ExampleFlag();
  }

  /** No word of a line holds a line break, so neither does the line. */
  lemma {:induction false} JoinedWords(ws: seq<string>)
    requires LegacyScanner.Words(ws)
    ensures '\n' !in Join(ws, ' ')
    decreases |ws|
  {
    assert '\n' !in ws[0] by {
      forall k | 0 <= k < |ws[0]| ensures ws[0][k] != '\n' {
      }
    }
    if |ws| > 1 {
      JoinedWords(ws[1..]);
    }
  }

  /** Where the reads fall on `# <name> <words>`. */
  lemma NameWordsScans(name: string, ws: seq<string>)
    requires Word(name) && name[0] == '@' && LegacyScanner.Words(ws)
    ensures var d := "# " + name + " " + Join(ws, ' ');
            var n := 3 + |name|;
            && '\n' !in d && SkipSeparators(d, 0) == 2 && n <= |d|
            && ScanIdentity(d, 2) == Scan(name, ' ', true, n)
            && d[n..] == Join(ws, ' ')
  {
    var d := "# " + name + " " + Join(ws, ' ');
    var n := 3 + |name|;
    assert d[2..2 + |name|] == name;
    assert d[n..] == Join(ws, ' ');
    assert d[0] == '#' && d[1] == ' ' && d[2] == '@' && d[n - 1] == ' ';
    WordAt(d, 2, name);
    SkipsTo(d, 0, 2);
    BareSpan(d, 2, n - 1);
    JoinedWords(ws);
    assert '\n' !in d by {
      assert d == "# " + name + " " + Join(ws, ' ');
      forall k | 0 <= k < |d| ensures d[k] != '\n' {
        if 2 <= k < 2 + |name| {
          assert d[k] == name[k - 2];
        } else if k >= n {
          assert d[k] == Join(ws, ' ')[k - n];
        }
      }
    }
  }

  /**
   * `# <name> w1 ... wn`: the older parser's section takes the last word as its value and no
   * option; the newer one's takes the first word and makes options of the others.
   */
  lemma NameThenWords(name: string, ws: seq<string>)
    requires Word(name) && name[0] == '@' && LegacyScanner.Words(ws)
    ensures LegacyScanner.CommentSections("# " + name + " " + Join(ws, ' '))
            == Some([Section(Join(ws, ' '), name, ws[|ws| - 1], [])])
    ensures CommentSections("# " + name + " " + Join(ws, ' '))
            == [Section(Join(ws, ' '), name, ws[0], LegacyScanner.BareOptions(ws[1..]))]
  {
    var d := "# " + name + " " + Join(ws, ' ');
    var n := 3 + |name|;
    NameWordsScans(name, ws);
    LegacySingleLine(d);
    SingleLine(d);
    assert LegacyScanner.SectionsAt(d, 0) == LegacyScanner.Body(d, n, n, NewSection(name));
    LegacyScanner.LastWordWins(d, n, n, NewSection(name), ws);
    SectionsAtName(d, 0, 2, ScanIdentity(d, 2));
    LegacyScanner.FirstWordWins(d, n, n, NewSection(name), ws);
    assert [] + LegacyScanner.BareOptions(ws[1..]) == LegacyScanner.BareOptions(ws[1..]);
  }

  /** `# @title a b`: "b" for the older parser; "a" and an option "b" for the newer one. */
  lemma TitleLastWord()
    ensures LegacyScanner.CommentSections("# @title a b") == Some([Section("a b", "@title", "b", [])])
    ensures CommentSections("# @title a b") == [Section("a b", "@title", "a", [SectionOption("b", "")])]
  {
    var ws := ["a", "b"];
    assert Join(ws, ' ') == "a b" by {
      assert Join(ws[1..], ' ') == "b";
    }
    assert "# " + "@title" + " " + "a b" == "# @title a b";
    assert Word("@title") && Word("a") && Word("b");
    assert LegacyScanner.BareOptions(ws[1..]) == [SectionOption("b", "")];
    NameThenWords("@title", ws);
  }

  /**
   * `# @a @`: the lone `@` reaches the end of the line, the cursor goes back onto it, and the
   * older parser reads it again for ever.
   */
  lemma TrailingAtNeverEnds()
    ensures LegacyScanner.CommentSections("# @a @") == None
  {
    var d := "# @a @";
    assert d == ['#', ' ', '@', 'a', ' ', '@'];
    SkipsTo(d, 0, 2);
    BareSpan(d, 2, 4);
    BareToEnd(d, 5);
    assert ScanIdentity(d, 2) == Scan("@a", ' ', true, 5);
    assert ScanIdentity(d, 5) == Scan("@", NoByte, false, 6);
    assert LegacyScanner.Body(d, 5, 5, NewSection("@a")) == None;
    LegacySingleLine(d);
  }

  /**
   * The same line in the newer parser, with the corrected cut: the read of the lone `@` ends the
   * line, and the line gives two flag sections, `@a` and `@`.
   */
  lemma TrailingAtEndsInNewer()
    ensures CommentSections("# @a @") == [Section("", "@a", "", []), Section("", "@", "", [])]
  {
    assert Word("@a") && Word("@");
    assert "# " + "@a" + " " + "@" == "# @a @";
    TwoNames("@a", "@");
  }
}
