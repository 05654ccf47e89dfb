/**
 * `textfile.DelimitedTextFile`: reads a delimited text file one record at a time. A record is a
 * line split at the delimiter, where the quote rune protects delimiters and line breaks and a
 * doubled quote stands for itself; `\r` outside quotes is dropped. A line whose first rune is the
 * comment rune is returned whole as a comment record; blank lines are skipped. The header is the
 * first data line (default), generated names `col1, col2, ...` (no-header mode) or the last
 * comment line before the first data line (header-comment mode).
 *
 * The file is modelled as the sequence of runes still to be read; decoding UTF-8 and decompressing
 * gzip are not part of this model, but the choice `open` makes between the two is (`Open`).
 */
module TextFile {
  import opened StringUtil
  import BufRead
  import opened TextColumns

  /** The three runes that shape the format. */
  datatype Format = Format(delim: char, quote: char, comment: char)

  /** `WithNoHeader` and `WithHeaderComment`. */
  datatype Mode = Mode(noHeader: bool, headerComment: bool)

  /** `TextRecord` without its parent link; `values` is `None` for a comment line (Go's nil slice). */
  datatype TextRecord = TextRecord(values: Option<seq<string>>, lineNum: int, dataLineNum: int,
                                   rawString: string, flag: bool, byteSize: int)

  /** What `ReadLine` returns: a record, or `io.EOF`. */
  datatype ReadResult = Record(rec: TextRecord) | EndOfFile

  const TabFormat := Format('\t', '\0', '#')
  const CsvFormat := Format(',', '"', '#')

  /** The per-line variables of `ReadLine`'s inner loop. */
  datatype ScanState = ScanState(fields: seq<string>, sb: string, raw: string, byteSize: int,
                                 inQuote: bool, first: bool, isComment: bool)

  const StartScan := ScanState([], "", "", 0, false, true, false)

  /**
   * The inner loop of `ReadLine` over the runes still to read: the state at the end of the line,
   * the runes left, and whether the input ran out (`io.EOF`) before a line break ended the line.
   */
  function ScanRecord(f: Format, input: seq<char>, st: ScanState): (r: (ScanState, seq<char>, bool))
    ensures input == [] ==> r == (st, [], true)
    ensures input != [] ==> |r.1| < |input|
    ensures r.2 ==> r.1 == []
    decreases |input|
  {
    if input == [] then (st, [], true)
    else
      var b := input[0];
      var rest := input[1..];
      var s1 := Consume(f, st, b);
      if s1.isComment then
        if b == '\r' then ScanRecord(f, rest, s1)
        else if b == '\n' then (s1, rest, false)
        else ScanRecord(f, rest, s1.(sb := s1.sb + [b]))
      else if s1.inQuote then
        if b == f.quote then
          if rest != [] && rest[0] == f.quote then
            ScanRecord(f, rest[1..], s1.(sb := s1.sb + [b], raw := s1.raw + [rest[0]],
                                         byteSize := s1.byteSize + RuneLen(rest[0])))
          else ScanRecord(f, rest, s1.(inQuote := false))
        else ScanRecord(f, rest, s1.(sb := s1.sb + [b]))
      else if b == f.quote then ScanRecord(f, rest, s1.(inQuote := true))
      else if b == '\r' then ScanRecord(f, rest, s1)
      else if b == '\n' then (s1, rest, false)
      else if b == f.delim then ScanRecord(f, rest, s1.(fields := s1.fields + [s1.sb], sb := ""))
      else ScanRecord(f, rest, s1.(sb := s1.sb + [b]))
  }

  /** The values of a finished line: the pending value counts only when it is not empty. */
  function Fields(st: ScanState): seq<string>
  {
    if |st.sb| > 0 then st.fields + [st.sb] else st.fields
  }

  /** `fmt.Sprintf("col%d", i + 1)` for each of `n` columns. */
  function ColNames(n: nat): (r: seq<string>)
    ensures |r| == n
  {
    seq(n, i requires 0 <= i < n => "col" + NatString(i + 1))
  }

  /** `n` empty strings. */
  function Blanks(n: nat): (r: seq<string>)
    ensures |r| == n && forall i :: 0 <= i < n ==> r[i] == ""
  {
    seq(n, i requires 0 <= i < n => "")
  }

  /**
   * A header widened to `n` columns: the new columns are named `colK` in no-header mode and left
   * empty otherwise; a header already wide enough stays as it is.
   */
  function Grow(h: seq<string>, n: nat, noHeader: bool): (r: seq<string>)
    ensures |r| >= |h| && |r| >= n && r[..|h|] == h
  {
    if |h| < n then h + (if noHeader then ColNames(n)[|h|..] else Blanks(n - |h|)) else h
  }

  /** The loop that drops leading comment runes and spaces from the last comment line. */
  function StripLeading(s: string, comment: char): (r: string)
    ensures |r| <= |s| && r == s[|s| - |r|..]
    ensures r == [] || (r[0] != comment && r[0] != ' ')
  {
    if s != [] && (s[0] == comment || s[0] == ' ') then StripLeading(s[1..], comment) else s
  }

  /** `splitLine` from the given state: what the rest of `s` adds to `fields` and the pending value. */
  function SplitFrom(f: Format, s: string, fields: seq<string>, sb: string, inQuote: bool): seq<string>
    decreases |s|
  {
    if s == [] || s[0] == '\U{FFFD}' then Fields(StartScan.(fields := fields, sb := sb))
    else
      var b := s[0];
      var rest := s[1..];
      if inQuote then
        if b == f.quote then
          if rest != [] && rest[0] == f.quote then SplitFrom(f, rest[1..], fields, sb + [b], true)
          else SplitFrom(f, rest, fields, sb, false)
        else SplitFrom(f, rest, fields, sb + [b], true)
      else if b == f.quote then SplitFrom(f, rest, fields, sb, true)
      else if b == '\r' then SplitFrom(f, rest, fields, sb, false)
      else if b == '\n' then Fields(StartScan.(fields := fields, sb := sb))
      else if b == f.delim then SplitFrom(f, rest, fields + [sb], "", false)
      else SplitFrom(f, rest, fields, sb + [b], false)
  }

  /** `splitLine`: splits a string as a line of the file is split (it stops at U+FFFD). */
  function SplitLine(f: Format, s: string): seq<string>
  {
    SplitFrom(f, s, [], "", false)
  }

  /** The variables of `DelimitedTextFile` that reading changes. */
  datatype ParserState = ParserState(pending: seq<char>, curLineNum: int, curDataLineNum: int,
                                     header: Option<seq<string>>, lastComment: string,
                                     rawHeaderLine: string)

  /** The state of a file that has not been read yet. */
  function Initial(text: seq<char>): ParserState
  {
    ParserState(text, 0, 0, None, "", "")
  }

  /**
   * The header a data line finds when none is set yet and the header is not the line itself:
   * generated names, or the last comment line with its leading comment runes and spaces removed,
   * split like a line (nothing when there was no comment).
   */
  function FoundHeader(f: Format, m: Mode, lastComment: string, width: nat): Option<seq<string>>
  {
    if m.noHeader then Some(ColNames(width))
    else if m.headerComment && lastComment != "" then Some(SplitLine(f, StripLeading(lastComment, f.comment)))
    else None
  }

  /** What `ReadLine` does with one scanned line: go on to the next line, or return. */
  datatype Step = Continue(next: ParserState) | Done(result: ReadResult, after: ParserState)

  /**
   * The decision after one line, from a state whose `pending` already excludes the line: a blank
   * line is skipped (or ends the file), a comment line is returned (and remembered while no header is
   * set), the first data line becomes the header in the default mode, and any other data line is
   * returned after widening the header to it.
   */
  function AfterLine(f: Format, m: Mode, p: ParserState, st: ScanState, eof: bool): (r: Step)
    ensures r.Continue? ==> r.next.pending == p.pending && (!eof || Fields(st) != [])
    ensures r.Done? ==> r.after.pending == p.pending
  {
    var fields := Fields(st);
    var line := p.curLineNum + 1;
    var p1 := p.(curLineNum := line);
    if fields == [] then
      if eof then Done(EndOfFile, p1) else Continue(p1)
    else if st.isComment then
      Done(Record(TextRecord(None, line, -1, st.raw, false, st.byteSize)),
           p1.(lastComment := if p.header.None? then st.raw else p.lastComment))
    else if p.header.None? && !m.noHeader && !m.headerComment then
      Continue(p1.(header := Some(fields), rawHeaderLine := st.raw))
    else
      var data := p.curDataLineNum + 1;
      Done(Record(TextRecord(Some(fields), line, data, st.raw, false, st.byteSize)),
           p1.(curDataLineNum := data, header := Some(DataHeader(f, m, p.header, p.lastComment, |fields|))))
  }

  /** The header after a data line of `width` values: the one found first if none is set, widened. */
  function DataHeader(f: Format, m: Mode, header: Option<seq<string>>, lastComment: string, width: nat): seq<string>
  {
    var h := if header.Some? then header else FoundHeader(f, m, lastComment, width);
    Grow(if h.Some? then h.value else [], width, m.noHeader)
  }

  /**
   * `ReadLine` on values: scans lines and applies `AfterLine` until it returns, so blank lines and
   * (in the default mode) the header line are never returned.
   */
  function NextRecord(f: Format, m: Mode, p: ParserState): (r: (ReadResult, ParserState))
    ensures r.0.Record? ==> |r.1.pending| < |p.pending|
    ensures r.0.EndOfFile? ==> r.1.pending == []
    decreases |p.pending|
  {
    var sc := ScanRecord(f, p.pending, StartScan);
    match AfterLine(f, m, p.(pending := sc.1), sc.0, sc.2)
    case Continue(p') => NextRecord(f, m, p')
    case Done(r, p') => (r, p')
  }

  /** One scanned line and `AfterLine` either give `NextRecord` or leave it to the shorter rest. */
  lemma ReadLineStep(f: Format, m: Mode, p: ParserState, st: ScanState, rest: seq<char>, eof: bool)
    requires ScanRecord(f, p.pending, StartScan) == (st, rest, eof)
    ensures var step := AfterLine(f, m, p.(pending := rest), st, eof);
      && (step.Continue? ==> NextRecord(f, m, p) == NextRecord(f, m, step.next) && |step.next.pending| < |p.pending|)
      && (step.Done? ==> NextRecord(f, m, p) == (step.result, step.after))
  {
  }

  /** The values of the data records from `p` on, in order. */
  function DataRows(f: Format, m: Mode, p: ParserState): seq<seq<string>>
    decreases |p.pending|
  {
    var n := NextRecord(f, m, p);
    if n.0.EndOfFile? then []
    else if n.0.rec.values.None? then DataRows(f, m, n.1)
    else [n.0.rec.values.value] + DataRows(f, m, n.1)
  }

  /**
   * `GetValue`: the value under the first header entry named `k`, or an error naming the missing
   * column. Go indexes the values without a check, so a name whose header position lies beyond the
   * record's values is a panic, excluded here.
   */
  method GetValue(header: seq<string>, values: seq<string>, k: string) returns (v: string, err: Option<string>)
    requires FindIndex(header, k) < |values|
    ensures err.None? <==> k in header
    ensures err.None? ==> v == values[FindIndex(header, k)]
    ensures err.Some? ==> v == "" && err.value == "Missing column: " + k
  {
    var i := 0;
    while i < |header|
      invariant 0 <= i <= |header| && k !in header[..i]
    {
      if header[i] == k {
        FindIndexAt(header, k, i);
        return values[i], None;
      }
      assert header[..i + 1] == header[..i] + [header[i]];
      i := i + 1;
    }
    assert header[..i] == header;
    return "", Some("Missing column: " + k);
  }

  lemma FindIndexAt(header: seq<string>, k: string, i: nat)
    requires i < |header| && header[i] == k && k !in header[..i]
    ensures FindIndex(header, k) == i
  {
    assert forall j :: 0 <= j < i ==> header[j] != k by {
      forall j | 0 <= j < i ensures header[j] != k {
        assert header[..i][j] == header[j];
      }
    }
    assert k in header;
  }

  /** The state after consuming rune `b` of a line, before the rune is interpreted. */
  function Consume(f: Format, st: ScanState, b: char): ScanState
  {
    st.(raw := st.raw + [b], byteSize := st.byteSize + RuneLen(b), first := false,
        isComment := if st.first then b == f.comment else st.isComment)
  }

  /** A scanned line's raw text is exactly the runes it consumed, in order. */
  lemma {:induction false} ScanRaw(f: Format, input: seq<char>, st: ScanState)
    ensures var r := ScanRecord(f, input, st); r.0.raw + r.1 == st.raw + input
    decreases |input|, 1
  {
    if input != [] {
      var b, rest := input[0], input[1..];
      var s1 := Consume(f, st, b);
      assert input == [b] + rest;
      if s1.isComment {
        if b == '\r' { ScanRawVia(f, input, st, s1, rest); }
        else if b != '\n' { ScanRawVia(f, input, st, s1.(sb := s1.sb + [b]), rest); }
      } else if s1.inQuote {
        if b == f.quote {
          if rest != [] && rest[0] == f.quote {
            assert rest == [rest[0]] + rest[1..];
            ScanRawVia(f, input, st, s1.(sb := s1.sb + [b], raw := s1.raw + [rest[0]],
                                         byteSize := s1.byteSize + RuneLen(rest[0])), rest[1..]);
          } else { ScanRawVia(f, input, st, s1.(inQuote := false), rest); }
        } else { ScanRawVia(f, input, st, s1.(sb := s1.sb + [b]), rest); }
      } else if b == f.quote { ScanRawVia(f, input, st, s1.(inQuote := true), rest); }
      else if b == '\r' { ScanRawVia(f, input, st, s1, rest); }
      else if b == '\n' { }
      else if b == f.delim { ScanRawVia(f, input, st, s1.(fields := s1.fields + [s1.sb], sb := ""), rest); }
      else { ScanRawVia(f, input, st, s1.(sb := s1.sb + [b]), rest); }
    }
  }

  /** One step of `ScanRaw`: the scan goes on from `next` over `more`, which keeps raw text and input together. */
  lemma {:induction false} ScanRawVia(f: Format, input: seq<char>, st: ScanState, next: ScanState, more: seq<char>)
    requires |more| < |input| && ScanRecord(f, input, st) == ScanRecord(f, more, next)
    requires next.raw + more == st.raw + input
    ensures var r := ScanRecord(f, input, st); r.0.raw + r.1 == st.raw + input
    decreases |input|, 0
  {
    ScanRaw(f, more, next);
  }

  /** The byte size a line reports is the UTF-8 length of its raw text. */
  lemma {:induction false} ScanSize(f: Format, input: seq<char>, st: ScanState)
    requires st.byteSize == EncodedLen(st.raw)
    ensures var r := ScanRecord(f, input, st); r.0.byteSize == EncodedLen(r.0.raw)
    decreases |input|
  {
    if input != [] {
      var b, rest := input[0], input[1..];
      var s1 := Consume(f, st, b);
      assert s1.raw[..|s1.raw| - 1] == st.raw;
      if s1.isComment {
        if b == '\r' { ScanSize(f, rest, s1); }
        else if b != '\n' { ScanSize(f, rest, s1.(sb := s1.sb + [b])); }
      } else if s1.inQuote {
        if b == f.quote {
          if rest != [] && rest[0] == f.quote {
            var s2 := s1.(sb := s1.sb + [b], raw := s1.raw + [rest[0]],
                          byteSize := s1.byteSize + RuneLen(rest[0]));
            assert s2.raw[..|s2.raw| - 1] == s1.raw;
            ScanSize(f, rest[1..], s2);
          } else { ScanSize(f, rest, s1.(inQuote := false)); }
        } else { ScanSize(f, rest, s1.(sb := s1.sb + [b])); }
      } else if b == f.quote { ScanSize(f, rest, s1.(inQuote := true)); }
      else if b == '\r' { ScanSize(f, rest, s1); }
      else if b == '\n' { }
      else if b == f.delim { ScanSize(f, rest, s1.(fields := s1.fields + [s1.sb], sb := "")); }
      else { ScanSize(f, rest, s1.(sb := s1.sb + [b])); }
    }
  }

  /**
   * A line that the input did not cut short ends with its line feed, and a line is a comment
   * exactly when its first rune is the comment rune.
   */
  lemma {:induction false} ScanEnds(f: Format, input: seq<char>, st: ScanState)
    ensures var r := ScanRecord(f, input, st);
      && (!r.2 ==> |r.0.raw| > 0 && r.0.raw[|r.0.raw| - 1] == '\n')
      && (st.first && input != [] ==> (r.0.isComment <==> input[0] == f.comment))
      && (!st.first ==> r.0.isComment == st.isComment)
    decreases |input|
  {
    if input != [] {
      var b, rest := input[0], input[1..];
      var s1 := Consume(f, st, b);
      if s1.isComment {
        if b == '\r' { ScanEnds(f, rest, s1); }
        else if b != '\n' { ScanEnds(f, rest, s1.(sb := s1.sb + [b])); }
      } else if s1.inQuote {
        if b == f.quote {
          if rest != [] && rest[0] == f.quote {
            ScanEnds(f, rest[1..], s1.(sb := s1.sb + [b], raw := s1.raw + [rest[0]],
                                       byteSize := s1.byteSize + RuneLen(rest[0])));
          } else { ScanEnds(f, rest, s1.(inQuote := false)); }
        } else { ScanEnds(f, rest, s1.(sb := s1.sb + [b])); }
      } else if b == f.quote { ScanEnds(f, rest, s1.(inQuote := true)); }
      else if b == '\r' { ScanEnds(f, rest, s1); }
      else if b == '\n' { }
      else if b == f.delim { ScanEnds(f, rest, s1.(fields := s1.fields + [s1.sb], sb := "")); }
      else { ScanEnds(f, rest, s1.(sb := s1.sb + [b])); }
    }
  }

  /** The header in the order `MakeColNames` builds it. */
  method MakeColNames(n: nat) returns (names: seq<string>)
    ensures names == ColNames(n)
  {
    names := [];
    var i := 0;
    while i < n
      invariant 0 <= i <= n && |names| == i
      invariant forall j :: 0 <= j < i ==> names[j] == "col" + NatString(j + 1)
    {
      names := names + ["col" + NatString(i + 1)];
      i := i + 1;
    }
  }

  /** The header-comment loop: drops leading comment runes and spaces. */
  /** Widening the header to `n` columns: generated names without a header, blanks otherwise. */
  method WidenHeader(h: seq<string>, n: nat, noHeader: bool) returns (r: seq<string>)
    ensures r == Grow(h, n, noHeader)
  {
    r := h;
    if |h| < n {
      var wider := Blanks(n);
      if noHeader {
        wider := MakeColNames(n);
      }
      assert Blanks(n)[|h|..] == Blanks(n - |h|);
      r := h + wider[|h|..];
    }
  }

  method StripComment(s: string, comment: char) returns (s2: string)
    ensures s2 == StripLeading(s, comment)
  {
    s2 := s;
    while s2 != [] && (s2[0] == comment || s2[0] == ' ')
      invariant StripLeading(s2, comment) == StripLeading(s, comment)
    {
      s2 := s2[1..];
    }
  }

  /** `splitLine`. */
  method SplitLineLoop(f: Format, line: string) returns (cols: seq<string>)
    ensures cols == SplitLine(f, line)
  {
    var buf := line;
    var sb := "";
    var inQuote := false;
    cols := [];
    while buf != []
      invariant SplitFrom(f, buf, cols, sb, inQuote) == SplitLine(f, line)
    {
      var b := buf[0];
      if b == '\U{FFFD}' {
        break;
      }
      buf := buf[1..];
      if inQuote {
        if b == f.quote {
          if buf != [] && buf[0] == f.quote {
            buf := buf[1..];
            sb := sb + [b];
          } else {
            inQuote := false;
          }
        } else {
          sb := sb + [b];
        }
      } else if b == f.quote {
        inQuote := true;
      } else if b == '\r' {
      } else if b == '\n' {
        break;
      } else if b == f.delim {
        cols := cols + [sb];
        sb := "";
      } else {
        sb := sb + [b];
      }
    }
    if |sb| > 0 {
      cols := cols + [sb];
    }
  }

  class DelimitedTextFile {
    const Filename: string
    const Delim: char
    const Quote: char
    const Comment: char
    const IsCrLf: bool

    /** The runes the reader has not handed out yet (the file's decoded text after `next`). */
    var rest: seq<char>
    var next: char
    var hasNext: bool
    var curLineNum: int
    var curDataLineNum: int
    var Header: Option<seq<string>>
    var noHeader: bool
    var headerComment: bool
    var lastComment: string
    var rawHeaderLine: string

    function Fmt(): Format
    {
      Format(Delim, Quote, Comment)
    }

    function Modes(): Mode
      reads this`noHeader, this`headerComment
    {
      Mode(noHeader, headerComment)
    }

    /** The runes not yet returned by `nextRune`. */
    function Pending(): seq<char>
      reads this`hasNext, this`next, this`rest
    {
      (if hasNext then [next] else []) + rest
    }

    function State(): ParserState
      reads this`hasNext, this`next, this`rest, this`curLineNum, this`curDataLineNum, this`Header, this`lastComment,
            this`rawHeaderLine
    {
      ParserState(Pending(), curLineNum, curDataLineNum, Header, lastComment, rawHeaderLine)
    }

    /** `NewDelimitedFile` on a file whose text is `text`. */
    constructor NewDelimitedFile(fname: string, text: seq<char>, delim: char, quote: char, comment: char, isCrLf: bool)
      ensures Fmt() == Format(delim, quote, comment) && IsCrLf == isCrLf && Filename == fname
      ensures Modes() == Mode(false, false) && State() == Initial(text)
    {
      Filename, Delim, Quote, Comment, IsCrLf := fname, delim, quote, comment, isCrLf;
      rest := text;
      next, hasNext := '\0', false;
      curLineNum, curDataLineNum := 0, 0;
      Header := None;
      noHeader, headerComment := false, false;
      lastComment, rawHeaderLine := "", "";
    }

    /** `NewTabFile`: tab-delimited, no quote rune (the NUL rune), `#` comments, `\n` line ends. */
    constructor NewTabFile(fname: string, text: seq<char>)
      ensures Fmt() == TabFormat && !IsCrLf && Filename == fname
      ensures Modes() == Mode(false, false) && State() == Initial(text)
    {
      Filename, Delim, Quote, Comment, IsCrLf := fname, '\t', '\0', '#', false;
      rest := text;
      next, hasNext := '\0', false;
      curLineNum, curDataLineNum := 0, 0;
      Header := None;
      noHeader, headerComment := false, false;
      lastComment, rawHeaderLine := "", "";
    }

    /** `NewCSVFile`: comma-delimited, `"` quotes, `#` comments, `\r\n` line ends. */
    constructor NewCSVFile(fname: string, text: seq<char>)
      ensures Fmt() == CsvFormat && IsCrLf && Filename == fname
      ensures Modes() == Mode(false, false) && State() == Initial(text)
    {
      Filename, Delim, Quote, Comment, IsCrLf := fname, ',', '"', '#', true;
      rest := text;
      next, hasNext := '\0', false;
      curLineNum, curDataLineNum := 0, 0;
      Header := None;
      noHeader, headerComment := false, false;
      lastComment, rawHeaderLine := "", "";
    }

    /**
     * `Clone`: a new, unread file with the same delimiter, quote and comment runes; the line-end
     * style and the header modes are not carried over.
     */
    method Clone(fname: string, text: seq<char>) returns (c: DelimitedTextFile)
      ensures fresh(c) && c.Fmt() == Fmt() && !c.IsCrLf && c.Filename == fname
      ensures c.Modes() == Mode(false, false) && c.State() == Initial(text)
    {
      c := new DelimitedTextFile.NewDelimitedFile(fname, text, Delim, Quote, Comment, false);
    }

    method WithNoHeader(val: bool) returns (t: DelimitedTextFile)
      modifies this`noHeader
      ensures t == this && noHeader == val
    {
      noHeader := val;
      t := this;
    }

    method WithHeaderComment(val: bool) returns (t: DelimitedTextFile)
      modifies this`headerComment
      ensures t == this && headerComment == val
    {
      headerComment := val;
      t := this;
    }

    /** `populateNext`: takes the next rune off the input into `next`, or reports `io.EOF`. */
    method PopulateNext() returns (eof: bool)
      modifies this`next, this`hasNext, this`rest
      ensures old(rest) == [] ==> eof && !hasNext && rest == []
      ensures old(rest) != [] ==> !eof && hasNext && next == old(rest)[0] && rest == old(rest)[1..]
    {
      hasNext := false;
      if rest == [] {
        return true;
      }
      next, rest := rest[0], rest[1..];
      hasNext := true;
      eof := false;
    }

    /** `nextRune`: hands out the next rune and pre-fetches the one after it. */
    method NextRune() returns (r: char, eof: bool)
      modifies this`next, this`hasNext, this`rest
      ensures old(Pending()) == [] ==> eof && Pending() == []
      ensures old(Pending()) != [] ==> !eof && r == old(Pending())[0] && Pending() == old(Pending())[1..]
    {
      r := '\0';
      if !hasNext {
        eof := PopulateNext();
        if eof {
          return;
        }
      }
      r := next;
      var _ := PopulateNext();
      eof := false;
    }

    /** `peekRune`: the next rune, without handing it out. */
    method PeekRune() returns (r: char, eof: bool)
      modifies this`next, this`hasNext, this`rest
      ensures Pending() == old(Pending())
      ensures eof <==> Pending() == []
      ensures !eof ==> r == Pending()[0]
    {
      r := '\0';
      if !hasNext {
        eof := PopulateNext();
        if eof {
          return;
        }
      }
      r, eof := next, false;
    }

    /** The inner loop of `ReadLine`: reads one line's runes. */
    method ScanLine() returns (st: ScanState, eof: bool)
      modifies this`next, this`hasNext, this`rest
      ensures (st, Pending(), eof) == ScanRecord(Fmt(), old(Pending()), StartScan)
    {
      var l: seq<string> := [];
      var sb, sbRaw := "", "";
      var inQuote, first, isComment := false, true, false;
      var byteSize := 0;
      eof := false;
      while true
        invariant ScanRecord(Fmt(), Pending(), ScanState(l, sb, sbRaw, byteSize, inQuote, first, isComment))
                  == ScanRecord(Fmt(), old(Pending()), StartScan)
        invariant first ==> !isComment
        decreases |Pending()|
      {
        ghost var input := Pending();
        var b, e := NextRune();
        if e {
          eof := true;
          break;
        }
        assert b == input[0] && Pending() == input[1..];
        sbRaw := sbRaw + [b];
        byteSize := byteSize + RuneLen(b);
        if first {
          first := false;
          if b == Comment {
            isComment := true;
          }
        }
        if isComment {
          if b == '\r' {
          } else if b == '\n' {
            break;
          } else {
            sb := sb + [b];
          }
        } else if inQuote {
          if b == Quote {
            var n, e2 := PeekRune();
            if !e2 && n == Quote {
              var _, _ := NextRune();
              sb := sb + [b];
              sbRaw := sbRaw + [n];
              byteSize := byteSize + RuneLen(n);
            } else {
              inQuote := false;
            }
          } else {
            sb := sb + [b];
          }
        } else if b == Quote {
          inQuote := true;
        } else if b == '\r' {
        } else if b == '\n' {
          break;
        } else if b == Delim {
          l := l + [sb];
          sb := "";
        } else {
          sb := sb + [b];
        }
      }
      st := ScanState(l, sb, sbRaw, byteSize, inQuote, first, isComment);
    }

    /**
     * `ReadLine`: the next comment or data record, or `io.EOF`; the header and the counters move
     * as `NextRecord` says.
     */
    method ReadLine() returns (r: ReadResult)
      modifies this`next, this`hasNext, this`rest, this`curLineNum, this`curDataLineNum,
               this`Header, this`lastComment, this`rawHeaderLine
      ensures (r, State()) == NextRecord(Fmt(), Modes(), old(State()))
    {
      while true
        invariant NextRecord(Fmt(), Modes(), State()) == NextRecord(Fmt(), Modes(), old(State()))
        decreases |Pending()|
      {
        ghost var before := State();
        var st, eof := ScanLine();
        assert State() == before.(pending := Pending());
        ReadLineStep(Fmt(), Modes(), before, st, Pending(), eof);
        var done;
        done, r := AfterScan(st, eof);
        if done {
          return;
        }
      }
    }

    /** The part of `ReadLine` after the inner loop: counts the line and decides what to do with it. */
    method AfterScan(st: ScanState, eof: bool) returns (done: bool, r: ReadResult)
      modifies this`curLineNum, this`curDataLineNum, this`Header, this`lastComment, this`rawHeaderLine
      ensures var step := AfterLine(Fmt(), Modes(), old(State()), st, eof);
        && (done <==> step.Done?)
        && (step.Done? ==> r == step.result && State() == step.after)
        && (step.Continue? ==> State() == step.next)
    {
      var cols := if |st.sb| > 0 then st.fields + [st.sb] else st.fields;
      curLineNum := curLineNum + 1;
      assert State() == old(State()).(curLineNum := old(curLineNum) + 1);
      if cols == [] {
        return eof, EndOfFile;
      }
      if st.isComment {
        r := CommentLine(st);
        return true, r;
      }
      done, r := DataLine(st, cols);
    }

    /** A comment line: kept as the last comment while no header is set. */
    method CommentLine(st: ScanState) returns (r: ReadResult)
      modifies this`lastComment
      ensures r == Record(TextRecord(None, curLineNum, -1, st.raw, false, st.byteSize))
      ensures State() == old(State()).(lastComment := if Header.None? then st.raw else old(lastComment))
    {
      if Header.None? {
        lastComment := st.raw;
      }
      return Record(TextRecord(None, curLineNum, -1, st.raw, false, st.byteSize));
    }

    /** A line of values `cols`: the header line in the default mode, else a data record. */
    method DataLine(st: ScanState, cols: seq<string>) returns (done: bool, r: ReadResult)
      requires cols != []
      modifies this`curDataLineNum, this`Header, this`rawHeaderLine
      ensures var p := old(State());
        if p.header.None? && !noHeader && !headerComment then
          !done && State() == p.(header := Some(cols), rawHeaderLine := st.raw)
        else
          && done && r == Record(TextRecord(Some(cols), p.curLineNum, p.curDataLineNum + 1, st.raw, false, st.byteSize))
          && State() == p.(curDataLineNum := p.curDataLineNum + 1,
                           header := Some(DataHeader(Fmt(), Modes(), p.header, p.lastComment, |cols|)))
    {
      r := EndOfFile;
      if Header.None? && !noHeader && !headerComment {
        Header := Some(cols);
        rawHeaderLine := st.raw;
        return false, r;
      }
      UpdateHeader(|cols|);
      curDataLineNum := curDataLineNum + 1;
      return true, Record(TextRecord(Some(cols), curLineNum, curDataLineNum, st.raw, false, st.byteSize));
    }

    /** The header handling for a data line of `width` values (not the default mode's header line). */
    method UpdateHeader(width: nat)
      requires width > 0
      modifies this`Header
      ensures Header == Some(DataHeader(Fmt(), Modes(), old(Header), lastComment, width))
    {
      var h := Header;
      if h.None? {
        h := FindHeader(width);
      }
      var wide := WidenHeader(if h.Some? then h.value else [], width, noHeader);
      Header := Some(wide);
    }

    /** The header a file without one takes at its first data line of `width` values. */
    method FindHeader(width: nat) returns (h: Option<seq<string>>)
      ensures h == FoundHeader(Fmt(), Modes(), lastComment, width)
    {
      h := None;
      if noHeader {
        var names := MakeColNames(width);
        h := Some(names);
      } else if headerComment {
        if lastComment != "" {
          var s2 := StripComment(lastComment, Comment);
          var cols := SplitLineLoop(Fmt(), s2);
          h := Some(cols);
        }
      }
    }
  }

  // ---------------------------------------------------------------------------------------------
  // Opening the file: the magic-byte decision

  /** How `open` treats a file: an error, gzip-compressed, or plain text. */
  datatype OpenKind = OpenFailed | Gzipped | Plain

  /**
   * The decision `open` makes from the file's bytes: the two-byte `Peek` fails on a file shorter
   * than two bytes, and gzip is chosen exactly when the file starts with `1F 8B`.
   */
  function OpenDecision(u: seq<byte>): OpenKind
  {
    if |u| < 2 then OpenFailed
    else if u[0] == 0x1F && u[1] == 0x8B then Gzipped
    else Plain
  }

  /** The decision the code's own comment describes: a file too short for the magic is plain. */
  function OpenCorrected(u: seq<byte>): OpenKind
  {
    if |u| >= 2 && u[0] == 0x1F && u[1] == 0x8B then Gzipped else Plain
  }

  /** With a buffer of at least two bytes, the first fill buffers two bytes exactly when the file has them. */
  lemma FirstFillTwo(br: BufRead.BufferedReader, avail: nat)
    requires br.bufferSize >= 2 && br.rd.readLimit > 0
    ensures br.FirstFill(avail) >= 2 <==> avail >= 2
  {
    var c1 := br.ReadCount(avail);
    if c1 > 0 {
      assert br.ReadCount(avail - c1) <= avail - c1;
      if avail >= 2 && c1 < 2 {
        assert br.ReadCount(avail - c1) >= 1;
      }
    }
  }

  /**
   * `open`: a fresh reader over the file peeks at two bytes and decides, consuming nothing, so the
   * reader handed on still delivers the whole file.
   */
  method OpenFile(src: BufRead.Source) returns (k: OpenKind, br: BufRead.BufferedReader)
    requires src.readLimit > 0
    modifies src
    ensures k == OpenDecision(old(src.data))
    ensures br.Valid() && br.rd == src && br.consumed == [] && br.Unconsumed() == old(src.data)
  {
    br := new BufRead.BufferedReader.OpenFileSize(src, BufRead.DefaultBufferSize);
    ghost var u := br.Unconsumed();
    var magic := new byte[2];
    var c, status := br.Peek(magic);
    FirstFillTwo(br, |u|);
    if status != BufRead.PeekOk {
      return OpenFailed, br;
    }
    if c == 2 && magic[0] == 0x1F && magic[1] == 0x8B {
      k := Gzipped;
    } else {
      k := Plain;
    }
  }

  /** `open` with the short-file case read as plain text, as the code's comment intends. */
  method OpenFileCorrected(src: BufRead.Source) returns (k: OpenKind, br: BufRead.BufferedReader)
    requires src.readLimit > 0
    modifies src
    ensures k == OpenCorrected(old(src.data))
    ensures br.Valid() && br.rd == src && br.consumed == [] && br.Unconsumed() == old(src.data)
  {
    br := new BufRead.BufferedReader.OpenFileSize(src, BufRead.DefaultBufferSize);
    ghost var u := br.Unconsumed();
    var magic := new byte[2];
    var c, status := br.Peek(magic);
    FirstFillTwo(br, |u|);
    if c == 2 && magic[0] == 0x1F && magic[1] == 0x8B {
      k := Gzipped;
    } else {
      k := Plain;
    }
  }
}
