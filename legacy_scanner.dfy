/**
 * The section parser of schema/schema.go, the older copy of the one in schema/extenssion.go.
 * The identity reader, the cursor and the splitting into lines are the same code and are reused
 * from Scanner; what differs is how a line's sections are grouped:
 *   - a section name that runs to the end of the line is dropped (the read reports failure);
 *   - while a section has no option, every bare identity replaces its value, so the last wins;
 *   - at the next `@` name the cursor is moved back one byte only, so the raw text of the
 *     earlier section runs through that name, and a line ending in a lone `@` token makes the
 *     parser call itself on the same position without end.
 * The functions here return None for that last case: the source never returns (its stack
 * overflows).
 */
module LegacyScanner {
  import opened Wrappers
  import opened Text
  import opened Seqs
  import opened Scanner

  /**
   * The loop of the older parseSection. At an `@` identity the cursor goes back one byte from
   * where the read stopped; when that is where the read began, the nested call reads the same
   * identity again and recurses on the same position for ever (None).
   */
  function Body(data: string, startpos: nat, pos: nat, sec: Section): (r: Option<seq<Section>>)
    requires startpos <= pos <= |data|
    ensures r.Some? ==> |r.value| >= 1 && r.value[0].name == sec.name
    ensures r.Some? ==> forall k | 1 <= k < |r.value| :: IsSectionName(r.value[k].name)
    decreases |data| - pos
  {
    var sc := ScanIdentity(data, pos);
    if sc.token == [] then
      if !sc.ok then Some([sec.(raw := data[startpos..sc.next])])
      else Body(data, startpos, sc.next, sec)
    else if sc.token[0] == '@' then
      var back := sc.next - 1;
      if back == pos then None
      else
        match Body(data, back, back, NewSection(sc.token))
        case None => None
        case Some(rest) => Some([sec.(raw := data[startpos..back])] + rest)
    else if sc.term == '=' then
      var v := ScanIdentity(data, sc.next);
      var sec' := sec.(options := sec.options + [SectionOption(sc.token, v.token)]);
      if !v.ok then Some([sec'.(raw := data[startpos..v.next])])
      else Body(data, startpos, v.next, sec')
    else if sec.options == [] then Body(data, startpos, sc.next, sec.(value := sc.token))
    else Body(data, startpos, sc.next, sec.(options := sec.options + [SectionOption(sc.token, "")]))
  }

  /**
   * The older ParseSection on a parser whose cursor is at `pos`: nothing unless the first
   * identity after the separators is an `@` name that a terminator ended.
   */
  function SectionsAt(data: string, pos: nat): (r: Option<seq<Section>>)
    requires pos <= |data|
    ensures r.Some? ==> forall k | 0 <= k < |r.value| :: IsSectionName(r.value[k].name)
  {
    var p := SkipSeparators(data, pos);
    if p == |data| then Some([])
    else
      var sc := ScanIdentity(data, p);
      if sc.token == [] || !sc.ok then Some([])
      else if sc.token[0] != '@' then Some([])
      else Body(data, sc.next, sc.next, NewSection(sc.token))
  }

  /** The sections of one line; an empty line is skipped. */
  function LineSections(line: string): (r: Option<seq<Section>>)
    ensures r.Some? ==> forall k | 0 <= k < |r.value| :: IsSectionName(r.value[k].name)
  {
    if line == [] then Some([]) else SectionsAt(line, 0)
  }

  /** The older ParseComment: the sections of every line, or None when one line never ends parsing. */
  function CommentSections(comment: string): (r: Option<seq<Section>>)
    ensures r.Some? ==> forall k | 0 <= k < |r.value| :: IsSectionName(r.value[k].name)
    decreases |comment|
  {
    if comment == [] then Some([])
    else
      var split := NextLine(comment);
      match LineSections(split.0)
      case None => None
      case Some(these) =>
        match CommentSections(split.1)
        case None => None
        case Some(rest) => Some(these + rest)
  }

  /** The older ParseSection, run on the shared cursor. */
  method ParseSection(p: Parser) returns (sections: seq<Section>)
    requires p.Valid() && SectionsAt(p.data, p.pos).Some?
    modifies p
    ensures p.Valid()
    ensures Some(sections) == SectionsAt(p.data, old(p.pos))
  {
    while true
      invariant p.Valid() && old(p.pos) <= p.pos
      invariant SkipSeparators(p.data, p.pos) == SkipSeparators(p.data, old(p.pos))
      decreases |p.data| - p.pos
    {
      var b, ok := p.Read();
      if !ok {
        return [];
      }
      if !IsSeparator(b) {
        p.Rewind();
        break;
      }
    }
    var name, _, ok := p.ReadIdentity();
    if |name| == 0 || !ok {
      return [];
    }
    if name[0] != '@' {
      return [];
    }
    sections := ParseSectionBody(p, name);
  }

  /** The older parseSection: fills one section and recurses, one byte back, at the next `@` name. */
  method ParseSectionBody(p: Parser, name: string) returns (sections: seq<Section>)
    requires p.Valid() && Body(p.data, p.pos, p.pos, NewSection(name)).Some?
    modifies p
    ensures p.Valid()
    ensures Some(sections) == Body(p.data, old(p.pos), old(p.pos), NewSection(name))
    decreases |p.data| - p.pos
  {
    var sec := NewSection(name);
    var startpos := p.pos;
    while true
      invariant p.Valid() && startpos == old(p.pos) <= p.pos
      invariant Body(p.data, startpos, p.pos, sec) == Body(p.data, startpos, startpos, NewSection(name))
      decreases |p.data| - p.pos
    {
      ghost var at := p.pos;
      var key, c, ok := p.ReadIdentity();
      if |key| == 0 {
        if !ok {
          break;
        }
        continue;
      }
      if key[0] == '@' {
        p.Rewind();
        assert p.pos != at;
        var raw := p.data[startpos..p.pos];
        var rest := ParseSectionBody(p, key);
        return [sec.(raw := raw)] + rest;
      }
      if c == '=' {
        var val, _, more := p.ReadIdentity();
        sec := sec.(options := sec.options + [SectionOption(key, val)]);
        if !more {
          break;
        }
      } else if |sec.options| == 0 {
        sec := sec.(value := key);
      } else {
        sec := sec.(options := sec.options + [SectionOption(key, "")]);
      }
    }
    sections := [sec.(raw := p.data[startpos..p.pos])];
  }

  /** The older ParseComment: an empty comment gives nothing; otherwise every line is parsed in turn. */
  method ParseComment(comment: string) returns (sections: seq<Section>)
    requires CommentSections(comment).Some?
    ensures Some(sections) == CommentSections(comment)
  {
    if comment == "" {
      return [];
    }
    sections := [];
    var rest := comment;
    while rest != []
      invariant CommentSections(rest).Some?
      invariant sections + CommentSections(rest).value == CommentSections(comment).value
      decreases |rest|
    {
      var split := NextLine(rest);
      var these := ParseLine(split.0);
      AppendAssoc(sections, these, CommentSections(split.1).value);
      sections := sections + these;
      rest := split.1;
    }
    assert sections + [] == sections;
  }

  /** One line of the older ParseComment, parsed by a fresh cursor. */
  method ParseLine(line: string) returns (these: seq<Section>)
    requires LineSections(line).Some?
    ensures Some(these) == LineSections(line)
  {
    if |line| == 0 {
      return [];
    }
    var parser := new Parser(line);
    these := ParseSection(parser);
  }

  // ---------------------------------------------------------------------------------------
  // How the older grouping differs from the newer one

  /**
   * The token of `r` is the stretch of `data` just before where the read stopped: before the
   * terminator when one ended it, else before the end of the line; it never begins before `start`.
   */
  predicate EndsToken(data: string, r: Scan, start: nat)
  {
    var e := if r.ok then r.next - 1 else |data|;
    && start + |r.token| <= e <= |data|
    && r.token == data[e - |r.token|..e]
  }

  /** A read that a terminator at `pos` stopped took the stretch from `start` to `pos`. */
  lemma StoppedToken(data: string, pos: nat, start: nat, b: char)
    requires start <= pos < |data|
    ensures EndsToken(data, Scan(data[start..pos], b, true, pos + 1), start)
  {
  }

  /** A token that never begins before `start'` never begins before an earlier `start`. */
  lemma EarlierStart(data: string, r: Scan, start: nat, start': nat)
    requires start <= start' && EndsToken(data, r, start')
    ensures EndsToken(data, r, start)
  {
  }

  /** An identity is the stretch of the line just before where the read stopped. */
  lemma {:induction false} ScannedSlice(data: string, pos: nat, start: nat, started: bool, quote: char)
    requires start <= pos <= |data|
    ensures EndsToken(data, Scanning(data, pos, start, started, quote), start)
    decreases |data| - pos
  {
    var r := Scanning(data, pos, start, started, quote);
    if pos == |data| {
      assert r == Scan(data[start..pos], NoByte, false, pos);
    } else {
      var b, p := data[pos], pos + 1;
      if IsQuote(b) && !started {
        assert r == Scanning(data, p, p, true, b);
        ScannedSlice(data, p, p, true, b);
        EarlierStart(data, r, start, p);
      } else if (IsQuote(b) && quote == b) || ((b == ';' || b == '=') && quote == NoByte)
                || (b == ' ' && started && quote == NoByte) {
        assert r == Scan(data[start..pos], b, true, p);
        StoppedToken(data, pos, start, b);
      } else if !IsQuote(b) && b != ';' && b != '=' && b != ' ' && !started {
        assert r == Scanning(data, p, pos, true, quote);
        ScannedSlice(data, p, pos, true, quote);
        EarlierStart(data, r, start, pos);
      } else {
        assert r == Scanning(data, p, start, started, quote);
        ScannedSlice(data, p, start, started, quote);
      }
    }
  }

  /**
   * At a following `@` name that a terminator ended, the older parser's raw text of the earlier
   * section runs up to the terminator, so it ends with that name; the newer one's stops before
   * the name.
   */
  lemma RawRunsThroughName(data: string, startpos: nat, pos: nat, sec: Section)
    requires startpos <= pos <= |data|
    requires ScanIdentity(data, pos).ok && IsSectionName(ScanIdentity(data, pos).token)
    requires Body(data, startpos, pos, sec).Some?
    ensures var sc := ScanIdentity(data, pos);
            var e := sc.next - 1 - |sc.token|;
            && startpos <= e
            && Body(data, startpos, pos, sec).value[0].raw == data[startpos..e] + sc.token
            && Scanner.Body(data, startpos, pos, sec)[0].raw == data[startpos..e]
  {
    var sc := ScanIdentity(data, pos);
    ScannedSlice(data, pos, pos, false, NoByte);
    var e := sc.next - 1 - |sc.token|;
    assert data[startpos..sc.next - 1] == data[startpos..e] + data[e..sc.next - 1];
  }

  /**
   * A line whose first `@` name runs to the end of the line: the older parser gives no section,
   * the newer one gives that section, empty.
   */
  lemma NameAtEndOfLine(data: string, pos: nat)
    requires pos <= |data| && SkipSeparators(data, pos) < |data|
    requires var sc := ScanIdentity(data, SkipSeparators(data, pos)); IsSectionName(sc.token) && !sc.ok
    ensures SectionsAt(data, pos) == Some([])
    ensures Scanner.SectionsAt(data, pos) == [NewSection(ScanIdentity(data, SkipSeparators(data, pos)).token)]
  {
    var sc := ScanIdentity(data, SkipSeparators(data, pos));
    var sec := NewSection(sc.token);
    assert ScanIdentity(data, |data|) == Scan([], NoByte, false, |data|);
    assert Scanner.Body(data, |data|, |data|, sec) == [sec.(raw := data[|data|..|data|])];
  }

  /** Words, each preceded by one space, as they follow a section name that a space ended. */
  predicate Words(ws: seq<string>)
  {
    ws != [] && forall k | 0 <= k < |ws| :: Word(ws[k]) && ws[k][0] != '@'
  }

  /** The bare options the newer parser makes of words after the first. */
  function BareOptions(ws: seq<string>): seq<SectionOption>
  {
    if ws == [] then [] else [SectionOption(ws[0], "")] + BareOptions(ws[1..])
  }

  /** Where the first of some space-separated words ends, and what the read of it returns. */
  lemma FirstWordScan(data: string, pos: nat, ws: seq<string>)
    requires pos <= |data| && Words(ws) && data[pos..] == Join(ws, ' ')
    ensures var n := pos + |ws[0]|;
            && n <= |data|
            && (|ws| == 1 ==> n == |data| && ScanIdentity(data, pos) == Scan(ws[0], NoByte, false, |data|))
            && (|ws| > 1 ==> n < |data| && data[n + 1..] == Join(ws[1..], ' ')
                             && ScanIdentity(data, pos) == Scan(ws[0], ' ', true, n + 1))
  {
    var w := ws[0];
    var n := pos + |w|;
    if |ws| == 1 {
      assert data[pos..] == w;
      assert data[pos..pos + |w|] == w;
      WordAt(data, pos, w);
      BareToEnd(data, pos);
    } else {
      var rest := Join(ws[1..], ' ');
      assert data[pos..] == w + [' '] + rest;
      assert data[pos..pos + |w|] == w;
      assert data[n] == ' ';
      assert data[n + 1..] == rest by {
        assert data[n + 1..] == data[pos..][|w| + 1..];
      }
      WordAt(data, pos, w);
      BareSpan(data, pos, n);
    }
  }

  /**
   * Bare words after a section name: the older parser keeps the last as the value and makes no
   * option (every word replaces the one before).
   */
  lemma {:induction false} LastWordWins(data: string, startpos: nat, pos: nat, sec: Section, ws: seq<string>)
    requires startpos <= pos <= |data| && Words(ws) && data[pos..] == Join(ws, ' ')
    requires sec.options == []
    ensures Body(data, startpos, pos, sec) == Some([sec.(value := ws[|ws| - 1], raw := data[startpos..])])
    decreases |ws|
  {
    FirstWordScan(data, pos, ws);
    var sec' := sec.(value := ws[0]);
    if |ws| == 1 {
      assert ScanIdentity(data, |data|) == Scan([], NoByte, false, |data|);
      assert data[startpos..|data|] == data[startpos..];
      assert Body(data, startpos, pos, sec) == Body(data, startpos, |data|, sec');
    } else {
      var n := pos + |ws[0]| + 1;
      assert Body(data, startpos, pos, sec) == Body(data, startpos, n, sec');
      LastWordWins(data, startpos, n, sec', ws[1..]);
    }
  }

  /**
   * The same words in the newer parser: the first is the value and every later one is an
   * option with an empty value.
   */
  lemma FirstWordWins(data: string, startpos: nat, pos: nat, sec: Section, ws: seq<string>)
    requires startpos <= pos <= |data| && Words(ws) && data[pos..] == Join(ws, ' ')
    requires sec.value == []
    ensures Scanner.Body(data, startpos, pos, sec)
            == [sec.(value := ws[0], options := sec.options + BareOptions(ws[1..]), raw := data[startpos..])]
  {
    if |ws| == 1 {
      OnlyWord(data, startpos, pos, sec, ws);
    } else {
      FirstWordScan(data, pos, ws);
      var sc := ScanIdentity(data, pos);
      BodyBareStep(data, startpos, pos, sec, sc);
      WordsAsOptions(data, startpos, sc.next, sec.(value := ws[0]), ws[1..]);
    }
  }

  /** A single bare word becomes the newer parser's value. */
  lemma OnlyWord(data: string, startpos: nat, pos: nat, sec: Section, ws: seq<string>)
    requires startpos <= pos <= |data| && Words(ws) && data[pos..] == Join(ws, ' ')
    requires sec.value == [] && |ws| == 1
    ensures Scanner.Body(data, startpos, pos, sec)
            == [sec.(value := ws[0], options := sec.options + BareOptions(ws[1..]), raw := data[startpos..])]
  {
    FirstWordScan(data, pos, ws);
    var sec' := sec.(value := ws[0]);
    assert ScanIdentity(data, |data|) == Scan([], NoByte, false, |data|);
    assert data[startpos..|data|] == data[startpos..];
    assert Scanner.Body(data, startpos, pos, sec) == Scanner.Body(data, startpos, |data|, sec');
    assert sec.options + BareOptions(ws[1..]) == sec.options;
  }

  /** Once a section has a value, the newer parser makes every further bare word an option. */
  lemma {:induction false} WordsAsOptions(data: string, startpos: nat, pos: nat, sec: Section, ws: seq<string>)
    requires startpos <= pos <= |data| && Words(ws) && data[pos..] == Join(ws, ' ')
    requires sec.value != []
    ensures Scanner.Body(data, startpos, pos, sec)
            == [sec.(options := sec.options + BareOptions(ws), raw := data[startpos..])]
    decreases |ws|
  {
    FirstWordScan(data, pos, ws);
    var sc := ScanIdentity(data, pos);
    var sec' := sec.(options := sec.options + [SectionOption(ws[0], "")]);
    BodyBareStep(data, startpos, pos, sec, sc);
    if |ws| == 1 {
      LastOption(data, startpos, sec, ws[0]);
    } else {
      WordsAsOptions(data, startpos, sc.next, sec', ws[1..]);
      OptionsSnoc(sec.options, ws);
    }
  }

  lemma LastOption(data: string, startpos: nat, sec: Section, w: string)
    requires startpos <= |data|
    ensures var sec' := sec.(options := sec.options + [SectionOption(w, "")]);
            Scanner.Body(data, startpos, |data|, sec')
            == [sec.(options := sec.options + BareOptions([w]), raw := data[startpos..])]
  {
    var sec' := sec.(options := sec.options + [SectionOption(w, "")]);
    BodyEmptyStep(data, startpos, |data|, sec', ScanIdentity(data, |data|));
    assert data[startpos..|data|] == data[startpos..];
    assert BareOptions([w]) == [SectionOption(w, "")];
  }

  lemma OptionsSnoc(opts: seq<SectionOption>, ws: seq<string>)
    requires ws != []
    ensures opts + [SectionOption(ws[0], "")] + BareOptions(ws[1..]) == opts + BareOptions(ws)
  {
    assert BareOptions(ws) == [SectionOption(ws[0], "")] + BareOptions(ws[1..]);
  }
}
