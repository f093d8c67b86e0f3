/**
 * The annotation scanner and section parser of schema/extenssion.go: a byte cursor over one
 * comment line (`Parser`), the identity reader, the grouping of identities into `@` sections,
 * and the splitting of a head comment into lines.
 *
 * Each imperative member is proved against a specification function over the line's bytes
 * (`ScanIdentity`, `Body`, `SectionsAt`, `CommentSections`); the properties of the grammar are
 * lemmas about those functions.
 */
module Scanner {
  import opened Text
  import opened Seqs

  /** One `key` or `key=value` item of a section. */
  datatype SectionOption = SectionOption(name: string, value: string)

  /** One `@name ...` clause of a comment line; `raw` is the unparsed text after the name. */
  datatype Section = Section(raw: string, name: string, value: string, options: seq<SectionOption>)

  /** Go's zero byte, returned as the terminator when a read reaches the end of the line. */
  const NoByte: char := '\0'

  predicate IsQuote(b: char)
  {
    b == '\'' || b == '"' || b == '`'
  }

  /** Bytes skipped before the first identity of a line. */
  predicate IsSeparator(b: char)
  {
    b == '#' || b == ';' || b == ' '
  }

  /** Bytes that end a bare identity. */
  predicate EndsBare(b: char)
  {
    b == ';' || b == '=' || b == ' '
  }

  predicate IsSectionName(name: string)
  {
    |name| > 0 && name[0] == '@'
  }

  /** What one call of ReadIdentity returns, with the cursor position it leaves behind. */
  datatype Scan = Scan(token: string, term: char, ok: bool, next: nat)

  /**
   * The loop of ReadIdentity from cursor `pos`, with `start` the first byte of the token so far,
   * `started` whether a token has begun and `quote` the opening quote (NoByte for a bare token).
   * The source also tests whether the byte before the cursor is a backslash once a quote is read;
   * that byte is the quote itself, so the test never succeeds and is not repeated here
   * (see BackslashDoesNotEscape).
   */
  function Scanning(data: string, pos: nat, start: nat, started: bool, quote: char): (r: Scan)
    requires start <= pos <= |data|
    ensures pos <= r.next <= |data|
    ensures r.ok ==> pos < r.next
    ensures !r.ok ==> r.next == |data| && r.term == NoByte
    ensures r.token != [] ==> start < r.next
    decreases |data| - pos
  {
    if pos == |data| then Scan(data[start..pos], NoByte, false, pos)
    else
      var b, p := data[pos], pos + 1;
      if IsQuote(b) then
        if !started then Scanning(data, p, p, true, b)
        else if quote == b then Scan(data[start..p - 1], b, true, p)
        else Scanning(data, p, start, started, quote)
      else if b == ';' || b == '=' then
        if quote == NoByte then Scan(data[start..p - 1], b, true, p)
        else Scanning(data, p, start, started, quote)
      else if b == ' ' then
        if started && quote == NoByte then Scan(data[start..p - 1], b, true, p)
        else Scanning(data, p, start, started, quote)
      else if !started then Scanning(data, p, p - 1, true, quote)
      else Scanning(data, p, start, started, quote)
  }

  /** ReadIdentity called with the cursor at `pos`. */
  function ScanIdentity(data: string, pos: nat): (r: Scan)
    requires pos <= |data|
    ensures pos <= r.next <= |data|
    ensures r.ok || r.token != [] ==> pos < r.next
  {
    Scanning(data, pos, pos, false, NoByte)
  }

  /** First position at or after `pos` holding a byte other than '#', ';' or ' ', or |data|. */
  function SkipSeparators(data: string, pos: nat): (p: nat)
    requires pos <= |data|
    ensures pos <= p <= |data|
    ensures forall k | pos <= k < p :: IsSeparator(data[k])
    ensures p < |data| ==> !IsSeparator(data[p])
    decreases |data| - pos
  {
    if pos == |data| || !IsSeparator(data[pos]) then pos else SkipSeparators(data, pos + 1)
  }

  function NewSection(name: string): Section
  {
    Section("", name, "", [])
  }

  /**
   * Where the source cuts the raw text of a section when the next `@` token has been read:
   * `next - |token| - 1`, one byte before the token when no terminator was consumed.
   */
  function RawEndAsWritten(token: string, next: nat): (e: int)
    ensures e < next - |token|
  {
    next - |token| - 1
  }

  /** The same cut, kept from falling before the section's first byte (see README, Findings). */
  function RawEnd(startpos: nat, token: string, next: nat): (e: nat)
    ensures startpos <= e
    ensures RawEndAsWritten(token, next) >= startpos ==> e == RawEndAsWritten(token, next)
  {
    if RawEndAsWritten(token, next) < startpos then startpos else RawEndAsWritten(token, next)
  }

  /**
   * The loop of parseSection: `sec` is the section being filled, `startpos` where its raw text
   * begins and `pos` the cursor. Returns this section followed by every later one on the line.
   */
  function Body(data: string, startpos: nat, pos: nat, sec: Section): (r: seq<Section>)
    requires startpos <= pos <= |data|
    ensures |r| >= 1 && r[0].name == sec.name
    ensures forall k | 1 <= k < |r| :: IsSectionName(r[k].name)
    decreases |data| - pos
  {
    var sc := ScanIdentity(data, pos);
    if sc.token == [] then
      if !sc.ok then [sec.(raw := data[startpos..sc.next])]
      else Body(data, startpos, sc.next, sec)
    else if sc.token[0] == '@' then
      [sec.(raw := data[startpos..RawEnd(startpos, sc.token, sc.next)])]
        + Body(data, sc.next, sc.next, NewSection(sc.token))
    else if sc.term == '=' then
      var v := ScanIdentity(data, sc.next);
      var sec' := sec.(options := sec.options + [SectionOption(sc.token, v.token)]);
      if !v.ok then [sec'.(raw := data[startpos..v.next])]
      else Body(data, startpos, v.next, sec')
    else if sec.value == [] then Body(data, startpos, sc.next, sec.(value := sc.token))
    else Body(data, startpos, sc.next, sec.(options := sec.options + [SectionOption(sc.token, "")]))
  }

  /** One step of Body over an identity that is neither a name nor followed by '='. */
  lemma BodyBareStep(data: string, startpos: nat, pos: nat, sec: Section, sc: Scan)
    requires startpos <= pos <= |data| && sc == ScanIdentity(data, pos)
    requires sc.token != [] && sc.token[0] != '@' && sc.term != '='
    ensures sec.value == [] ==> Body(data, startpos, pos, sec) == Body(data, startpos, sc.next, sec.(value := sc.token))
    ensures sec.value != [] ==>
              Body(data, startpos, pos, sec)
              == Body(data, startpos, sc.next, sec.(options := sec.options + [SectionOption(sc.token, "")]))
  {
  }

  /** One step of Body over an identity followed by '=' and a value. */
  lemma BodyOptionStep(data: string, startpos: nat, pos: nat, sec: Section, sc: Scan, v: Scan)
    requires startpos <= pos <= |data| && sc == ScanIdentity(data, pos)
    requires sc.ok && sc.token != [] && sc.token[0] != '@' && sc.term == '='
    requires v == ScanIdentity(data, sc.next)
    ensures v.ok ==>
              Body(data, startpos, pos, sec)
              == Body(data, startpos, v.next, sec.(options := sec.options + [SectionOption(sc.token, v.token)]))
    ensures !v.ok ==>
              Body(data, startpos, pos, sec)
              == [sec.(options := sec.options + [SectionOption(sc.token, v.token)], raw := data[startpos..v.next])]
  {
  }

  /** One step of Body over an empty identity. */
  lemma BodyEmptyStep(data: string, startpos: nat, pos: nat, sec: Section, sc: Scan)
    requires startpos <= pos <= |data| && sc == ScanIdentity(data, pos) && sc.token == []
    ensures sc.ok ==> Body(data, startpos, pos, sec) == Body(data, startpos, sc.next, sec)
    ensures !sc.ok ==> Body(data, startpos, pos, sec) == [sec.(raw := data[startpos..sc.next])]
  {
  }

  /** One step of Body over the next section's name. */
  lemma BodyNameStep(data: string, startpos: nat, pos: nat, sec: Section, sc: Scan)
    requires startpos <= pos <= |data| && sc == ScanIdentity(data, pos)
    requires sc.token != [] && sc.token[0] == '@'
    ensures Body(data, startpos, pos, sec)
      == [sec.(raw := data[startpos..RawEnd(startpos, sc.token, sc.next)])]
         + Body(data, sc.next, sc.next, NewSection(sc.token))
  {
  }

  /** SectionsAt when the first identity after the separators is a section name. */
  lemma SectionsAtName(data: string, pos: nat, p: nat, sc: Scan)
    requires pos <= p < |data| && SkipSeparators(data, pos) == p && sc == ScanIdentity(data, p)
    requires sc.token != [] && sc.token[0] == '@'
    ensures SectionsAt(data, pos) == Body(data, sc.next, sc.next, NewSection(sc.token))
  {
  }

  /** ParseSection on a parser whose cursor is at `pos`. */
  function SectionsAt(data: string, pos: nat): (r: seq<Section>)
    requires pos <= |data|
    ensures forall k | 0 <= k < |r| :: IsSectionName(r[k].name)
  {
    var p := SkipSeparators(data, pos);
    if p == |data| then []
    else
      var sc := ScanIdentity(data, p);
      if sc.token == [] || sc.token[0] != '@' then []
      else Body(data, sc.next, sc.next, NewSection(sc.token))
  }

  /**
   * The next line of `s` as bufio.Reader.ReadLine returns it (without its "\n", and without a
   * "\r" just before that "\n"), and the text after it.
   */
  function NextLine(s: string): (r: (string, string))
    requires s != []
    ensures |r.1| < |s|
    ensures '\n' !in r.0
  {
    var i := Index(s, '\n');
    if i < 0 then (s, [])
    else
      (if i > 0 && s[i - 1] == '\r' then s[..i - 1] else s[..i], s[i + 1..])
  }

  /** The sections of one line; an empty line is skipped. */
  function LineSections(line: string): (r: seq<Section>)
    ensures forall k | 0 <= k < |r| :: IsSectionName(r[k].name)
  {
    if line == [] then [] else SectionsAt(line, 0)
  }

  /** ParseComment: the sections of every non-empty line, line after line. */
  function CommentSections(comment: string): (r: seq<Section>)
    ensures forall k | 0 <= k < |r| :: IsSectionName(r[k].name)
    decreases |comment|
  {
    if comment == [] then []
    else
      var split := NextLine(comment);
      LineSections(split.0) + CommentSections(split.1)
  }

  /** The cursor of the source's Parser over one comment line. */
  class Parser {
    const data: string
    var pos: int

    ghost predicate Valid()
      reads this
    {
      0 <= pos <= |data|
    }

    constructor (line: string)
      ensures Valid() && data == line && pos == 0
    {
      data := line;
      pos := 0;
    }

    /** Reads the byte under the cursor and moves past it; fails only at the end of the line. */
    method Read() returns (b: char, ok: bool)
      requires Valid()
      modifies this
      ensures Valid()
      ensures ok <==> old(pos) < |data|
      ensures ok ==> b == data[old(pos)] && pos == old(pos) + 1
      ensures !ok ==> b == NoByte && pos == old(pos)
    {
      if pos >= |data| {
        return NoByte, false;
      }
      b := data[pos];
      pos := pos + 1;
      ok := true;
    }

    /** Moves the cursor one byte back, never before the start. */
    method Rewind()
      requires Valid()
      modifies this
      ensures Valid()
      ensures pos == if old(pos) == 0 then 0 else old(pos) - 1
    {
      pos := pos - 1;
      if pos < 0 {
        pos := 0;
      }
    }

    /** Reads one quoted or bare identity and the byte that ended it. */
    method ReadIdentity() returns (token: string, term: char, ok: bool)
      requires Valid()
      modifies this
      ensures Valid()
      ensures ScanIdentity(data, old(pos)) == Scan(token, term, ok, pos)
    {
      var start := pos;
      var started := false;
      var quote := NoByte;
      while true
        invariant Valid() && 0 <= start <= pos
        invariant Scanning(data, pos, start, started, quote) == ScanIdentity(data, old(pos))
        decreases |data| - pos
      {
        var b, more := Read();
        if !more {
          return data[start..pos], NoByte, false;
        }
        if IsQuote(b) {
          if !started {
            started, quote, start := true, b, pos;
          } else if quote == b {
            return data[start..pos - 1], b, true;
          }
        } else if b == ';' || b == '=' {
          if quote == NoByte {
            return data[start..pos - 1], b, true;
          }
        } else if b == ' ' {
          if started && quote == NoByte {
            return data[start..pos - 1], b, true;
          }
        } else if !started {
          started, start := true, pos - 1;
        }
      }
    }

    /** Skips leading separators and parses the line's sections, if its first identity is an `@` name. */
    method ParseSection() returns (sections: seq<Section>)
      requires Valid()
      modifies this
      ensures Valid()
      ensures sections == SectionsAt(data, old(pos))
    {
      while true
        invariant Valid() && old(pos) <= pos
        invariant SkipSeparators(data, pos) == SkipSeparators(data, old(pos))
        decreases |data| - pos
      {
        var b, ok := Read();
        if !ok {
          return [];
        }
        if !IsSeparator(b) {
          Rewind();
          break;
        }
      }
      var name, _, _ := ReadIdentity();
      if |name| == 0 {
        return [];
      }
      if name[0] != '@' {
        return [];
      }
      sections := ParseSectionBody(name);
    }

    /** The source's parseSection: fills one section, and recurses at the next `@` token. */
    method ParseSectionBody(name: string) returns (sections: seq<Section>)
      requires Valid()
      modifies this
      ensures Valid()
      ensures sections == Body(data, old(pos), old(pos), NewSection(name))
      decreases |data| - pos
    {
      var sec := NewSection(name);
      var startpos := pos;
      while true
        invariant Valid() && startpos == old(pos) <= pos
        invariant Body(data, startpos, pos, sec) == Body(data, startpos, startpos, NewSection(name))
        decreases |data| - pos
      {
        var key, c, ok := ReadIdentity();
        if |key| == 0 {
          if !ok {
            break;
          }
          continue;
        }
        if key[0] == '@' {
          var raw := data[startpos..RawEnd(startpos, key, pos)];
          var rest := ParseSectionBody(key);
          return [sec.(raw := raw)] + rest;
        }
        if c == '=' {
          var val, _, more := ReadIdentity();
          sec := sec.(options := sec.options + [SectionOption(key, val)]);
          if !more {
            break;
          }
        } else if |sec.value| == 0 {
          sec := sec.(value := key);
        } else {
          sec := sec.(options := sec.options + [SectionOption(key, "")]);
        }
      }
      sections := [sec.(raw := data[startpos..pos])];
    }
  }

  /** ParseComment: an empty comment gives nothing; otherwise every non-empty line is parsed in turn. */
  method ParseComment(comment: string) returns (sections: seq<Section>)
    ensures sections == CommentSections(comment)
  {
    if comment == "" {
      return [];
    }
    sections := [];
    var rest := comment;
    while rest != []
      invariant sections + CommentSections(rest) == CommentSections(comment)
      decreases |rest|
    {
      var split := NextLine(rest);
      var these := ParseLine(split.0);
      AppendAssoc(sections, these, CommentSections(split.1));
      sections := sections + these;
      rest := split.1;
    }
  }

  /** One line of ParseComment: an empty line is skipped, any other is parsed by a fresh Parser. */
  method ParseLine(line: string) returns (these: seq<Section>)
    ensures these == LineSections(line)
  {
    if |line| == 0 {
      return [];
    }
    var parser := new Parser(line);
    these := parser.ParseSection();
  }


  // ---------------------------------------------------------------------------------------
  // Properties of the identity grammar

  lemma {:induction false} QuotedTail(data: string, k: nat, start: nat, q: char, j: nat)
    requires start <= k <= j < |data| && IsQuote(q) && data[j] == q
    requires forall m | k <= m < j :: data[m] != q
    ensures Scanning(data, k, start, true, q) == Scan(data[start..j], q, true, j + 1)
    decreases j - k
  {
    if k < j {
      QuotedTail(data, k + 1, start, q, j);
    }
  }

  /**
   * A span opened by a quote ends at the next byte equal to that quote; separators, spaces and
   * the other quote kinds inside it are kept, the quotes are stripped and the quote is the
   * reported terminator.
   */
  lemma QuotedSpan(data: string, pos: nat, j: nat)
    requires pos < j < |data| && IsQuote(data[pos]) && data[j] == data[pos]
    requires forall m | pos < m < j :: data[m] != data[pos]
    ensures ScanIdentity(data, pos) == Scan(data[pos + 1..j], data[pos], true, j + 1)
  {
    QuotedTail(data, pos + 1, pos + 1, data[pos], j);
  }

  lemma {:induction false} UnclosedTail(data: string, k: nat, start: nat, q: char)
    requires start <= k <= |data| && IsQuote(q)
    requires forall m | k <= m < |data| :: data[m] != q
    ensures Scanning(data, k, start, true, q) == Scan(data[start..], NoByte, false, |data|)
    decreases |data| - k
  {
    if k < |data| {
      UnclosedTail(data, k + 1, start, q);
    }
  }

  /** A quote that is never closed runs to the end of the line, and the read reports failure. */
  lemma UnclosedQuote(data: string, pos: nat)
    requires pos < |data| && IsQuote(data[pos])
    requires forall m | pos < m < |data| :: data[m] != data[pos]
    ensures ScanIdentity(data, pos) == Scan(data[pos + 1..], NoByte, false, |data|)
  {
    UnclosedTail(data, pos + 1, pos + 1, data[pos]);
  }

  /**
   * The source means a backslash to escape a quote, but its test reads the quote itself: a
   * backslash just before the matching quote stays in the token and the quote still closes it.
   */
  lemma BackslashDoesNotEscape(data: string, pos: nat, j: nat)
    requires pos + 1 < j < |data| && IsQuote(data[pos])
    requires data[j - 1] == '\\' && data[j] == data[pos]
    requires forall m | pos < m < j :: data[m] != data[pos]
    ensures ScanIdentity(data, pos).ok && ScanIdentity(data, pos).next == j + 1
    ensures ScanIdentity(data, pos).token == data[pos + 1..j - 1] + "\\"
  {
    QuotedSpan(data, pos, j);
    assert data[pos + 1..j] == data[pos + 1..j - 1] + [data[j - 1]];
  }

  lemma {:induction false} BareTail(data: string, k: nat, start: nat, j: nat)
    requires start <= k <= j < |data| && EndsBare(data[j])
    requires forall m | k <= m < j :: !EndsBare(data[m])
    ensures Scanning(data, k, start, true, NoByte) == Scan(data[start..j], data[j], true, j + 1)
    decreases j - k
  {
    if k < j {
      BareTail(data, k + 1, start, j);
    }
  }

  /**
   * A bare span runs to the first ';', '=' or space, which is reported as its terminator; quotes
   * inside a bare span are ordinary bytes.
   */
  lemma BareSpan(data: string, pos: nat, j: nat)
    requires pos < j < |data| && !IsQuote(data[pos]) && EndsBare(data[j])
    requires forall m | pos <= m < j :: !EndsBare(data[m])
    ensures ScanIdentity(data, pos) == Scan(data[pos..j], data[j], true, j + 1)
  {
    BareTail(data, pos + 1, pos, j);
  }

  lemma {:induction false} BareEndTail(data: string, k: nat, start: nat)
    requires start <= k <= |data|
    requires forall m | k <= m < |data| :: !EndsBare(data[m])
    ensures Scanning(data, k, start, true, NoByte) == Scan(data[start..], NoByte, false, |data|)
    decreases |data| - k
  {
    if k < |data| {
      BareEndTail(data, k + 1, start);
    }
  }

  /** A bare span that reaches the end of the line is returned whole, and the read reports failure. */
  lemma BareToEnd(data: string, pos: nat)
    requires pos < |data| && !IsQuote(data[pos])
    requires forall m | pos <= m < |data| :: !EndsBare(data[m])
    ensures ScanIdentity(data, pos) == Scan(data[pos..], NoByte, false, |data|)
  {
    BareEndTail(data, pos + 1, pos);
  }

  /** Every identity is a piece of the line, so a line without '@' has no section. */
  lemma {:induction false} ScannedFrom(data: string, pos: nat, start: nat, started: bool, quote: char, c: char)
    requires start <= pos <= |data| && c !in data
    ensures c !in Scanning(data, pos, start, started, quote).token
    decreases |data| - pos
  {
    if pos < |data| {
      var b, p := data[pos], pos + 1;
      if IsQuote(b) && !started {
        ScannedFrom(data, p, p, true, b, c);
      } else if !IsQuote(b) && !EndsBare(b) && !started {
        ScannedFrom(data, p, p - 1, true, quote, c);
      } else {
        ScannedFrom(data, p, start, started, quote, c);
      }
    }
  }

  lemma NoAtNoSections(data: string, pos: nat)
    requires pos <= |data| && '@' !in data
    ensures SectionsAt(data, pos) == []
  {
    var p := SkipSeparators(data, pos);
    if p < |data| {
      ScannedFrom(data, p, p, false, NoByte, '@');
    }
  }

  /** A comment none of whose bytes is '@' carries no annotation. */
  lemma {:induction false} CommentWithoutAt(comment: string)
    requires '@' !in comment
    ensures CommentSections(comment) == []
    decreases |comment|
  {
    if comment != [] {
      var split := NextLine(comment);
      NextLineWithout(comment, '@');
      CommentWithoutAt(split.1);
      if split.0 != [] {
        NoAtNoSections(split.0, 0);
      }
      assert LineSections(split.0) == [];
    }
  }

  /** A character missing from a comment is missing from its first line and from the rest. */
  lemma NextLineWithout(s: string, c: char)
    requires s != [] && c !in s
    ensures c !in NextLine(s).0 && c !in NextLine(s).1
  {
    var split := NextLine(s);
    assert forall k | 0 <= k < |split.1| :: split.1[k] in s;
    assert forall k | 0 <= k < |split.0| :: split.0[k] in s;
  }

  lemma {:induction false} SpacesTail(data: string, m: nat, start: nat, k: nat)
    requires start <= m <= k < |data| && !EndsBare(data[k])
    requires forall i | m <= i < k :: data[i] == ' '
    ensures Scanning(data, m, start, false, NoByte) == Scanning(data, k, k, false, NoByte)
    decreases k - m
  {
    if m < k {
      SpacesTail(data, m + 1, start, k);
    }
  }

  /** Spaces before an identity are skipped: reading from them reads the identity that follows. */
  lemma LeadingSpaces(data: string, pos: nat, k: nat)
    requires pos <= k < |data| && !EndsBare(data[k])
    requires forall i | pos <= i < k :: data[i] == ' '
    ensures ScanIdentity(data, pos) == ScanIdentity(data, k)
  {
    SpacesTail(data, pos, pos, k);
  }

  /** The separators skipped before a line's first identity end at the first other byte. */
  lemma {:induction false} SkipsTo(data: string, pos: nat, k: nat)
    requires pos <= k < |data| && !IsSeparator(data[k])
    requires forall i | pos <= i < k :: IsSeparator(data[i])
    ensures SkipSeparators(data, pos) == k
    decreases k - pos
  {
    if pos < k {
      SkipsTo(data, pos + 1, k);
    }
  }

  /** A bare word: not empty, not opened by a quote, and free of the bytes that end a bare read. */
  predicate Word(t: string)
  {
    t != [] && !IsQuote(t[0]) && forall k | 0 <= k < |t| :: !EndsBare(t[k]) && t[k] != '\n'
  }

  /** `w` sits in `d` from position `p`: a bare read from `p` does not stop inside it. */
  lemma WordAt(d: string, p: nat, w: string)
    requires p + |w| <= |d| && d[p..p + |w|] == w && Word(w)
    ensures !IsQuote(d[p])
    ensures forall m | p <= m < p + |w| :: !EndsBare(d[m]) && d[m] != '\n'
  {
    forall m | p <= m < p + |w| ensures !EndsBare(d[m]) && d[m] != '\n' {
      assert d[m] == w[m - p];
    }
    assert d[p] == w[0];
  }
}
