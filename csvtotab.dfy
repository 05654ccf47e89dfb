/**
 * `CSVExporter`: rewrites a delimited file as a tab-delimited one, escaping the seven control
 * runes that would break a tab line, with the header first (once) and comment lines passed
 * through on request.
 */
module CsvToTab {
  import opened StringUtil
  import opened TextFile
  import Exporter

  // ---------------------------------------------------------------------------------------------
  // quoteTab

  /** The runes `quoteTab` escapes: BEL, BS, FF, LF, CR, TAB and VT. */
  predicate Escaped(c: char)
  {
    c == '\U{7}' || c == '\U{8}' || c == '\U{C}' || c == '\n' || c == '\r' || c == '\t' || c == '\U{B}'
  }

  /** The letter that follows the backslash in an escape, as in Go's `\a \b \f \n \r \t \v`. */
  function EscapeLetter(c: char): char
    requires Escaped(c)
  {
    if c == '\U{7}' then 'a'
    else if c == '\U{8}' then 'b'
    else if c == '\U{C}' then 'f'
    else if c == '\n' then 'n'
    else if c == '\r' then 'r'
    else if c == '\t' then 't'
    else 'v'
  }

  /** The letters that can follow a backslash in `quoteTab`'s output. */
  predicate IsEscapeLetter(c: char)
  {
    c == 'a' || c == 'b' || c == 'f' || c == 'n' || c == 'r' || c == 't' || c == 'v'
  }

  /** The rune an escape letter stands for. */
  function LetterRune(c: char): (r: char)
    requires IsEscapeLetter(c)
    ensures Escaped(r) && EscapeLetter(r) == c
  {
    if c == 'a' then '\U{7}'
    else if c == 'b' then '\U{8}'
    else if c == 'f' then '\U{C}'
    else if c == 'n' then '\n'
    else if c == 'r' then '\r'
    else if c == 't' then '\t'
    else '\U{B}'
  }

  /** What `quoteTab` writes for one rune. */
  function EscapeRune(c: char): string
  {
    if Escaped(c) then ['\\', EscapeLetter(c)] else [c]
  }

  /** How many runes of `s` are escaped. */
  function CountEscaped(s: string): nat
  {
    if s == [] then 0 else (if Escaped(s[0]) then 1 else 0) + CountEscaped(s[1..])
  }

  /**
   * `quoteTab` on values: every escaped rune becomes a backslash and its letter, every other rune
   * is copied. The result holds no tab and no line break, and is one rune longer per escape.
   */
  function Quoted(s: string): (r: string)
    ensures |r| == |s| + CountEscaped(s)
    ensures '\t' !in r && '\n' !in r && '\r' !in r
  {
    if s == [] then [] else EscapeRune(s[0]) + Quoted(s[1..])
  }

  /** `quoteTab`: the builder loop over the runes of `s`. */
  method QuoteTab(s: string) returns (r: string)
    ensures r == Quoted(s)
  {
    r := [];
    var i := 0;
    WholeSuffix(s);
    while i < |s|
      invariant i <= |s|
      invariant Quoted(s) == r + Quoted(s[i..])
    {
      QuotedUnfold(s, i, r);
      r := r + EscapeRune(s[i]);
      i := i + 1;
    }
    EmptySuffix(s);
  }

  /** One rune of `QuoteTab`'s loop, after the text `r`. */
  lemma QuotedUnfold(s: string, i: nat, r: string)
    requires i < |s|
    ensures r + Quoted(s[i..]) == (r + EscapeRune(s[i])) + Quoted(s[i + 1..])
  {
    assert s[i..][1..] == s[i + 1..];
    assert Quoted(s[i..]) == EscapeRune(s[i]) + Quoted(s[i + 1..]);
  }

  /** All of a string is its suffix from 0, and nothing is escaped before it. */
  lemma WholeSuffix(s: string)
    ensures Quoted(s) == [] + Quoted(s[0..])
  {
    assert s[0..] == s;
  }

  /** The suffix from the end is empty. */
  lemma EmptySuffix(s: string)
    ensures s[|s|..] == []
  {
  }


  /** Reverses the escapes: a backslash and an escape letter become the rune it stands for. */
  function Unquoted(s: string): string
  {
    if s == [] then []
    else if |s| >= 2 && s[0] == '\\' && IsEscapeLetter(s[1]) then [LetterRune(s[1])] + Unquoted(s[2..])
    else [s[0]] + Unquoted(s[1..])
  }

  /** Round trip: a value without backslashes is recovered from its escaped form. */
  lemma {:induction false} UnquoteQuoted(s: string)
    requires '\\' !in s
    ensures Unquoted(Quoted(s)) == s
    decreases |s|
  {
    if s != [] {
      var c := s[0];
      var t := Quoted(s[1..]);
      assert '\\' !in s[1..] by { assert forall i :: 0 <= i < |s[1..]| ==> s[1..][i] == s[i + 1]; }
      UnquoteQuoted(s[1..]);
      if Escaped(c) {
        var w := ['\\', EscapeLetter(c)] + t;
        assert w[2..] == t;
        assert Unquoted(w) == [c] + Unquoted(t);
      } else {
        var w := [c] + t;
        assert w[1..] == t;
        assert Unquoted(w) == [c] + Unquoted(t);
      }
      assert s == [c] + s[1..];
    }
  }

  /** A string is left unchanged exactly when it holds none of the seven escaped runes. */
  lemma {:induction false} QuotedUnchanged(s: string)
    ensures Quoted(s) == s <==> forall i :: 0 <= i < |s| ==> !Escaped(s[i])
    decreases |s|
  {
    CountEscapedZero(s);
    if s != [] {
      QuotedUnchanged(s[1..]);
      assert forall i :: 1 <= i < |s| ==> s[i] == s[1..][i - 1];
      if !Escaped(s[0]) && Quoted(s[1..]) == s[1..] {
        assert s == [s[0]] + s[1..];
      }
    }
  }

  /** No rune is escaped exactly when the count of escapes is zero. */
  lemma {:induction false} CountEscapedZero(s: string)
    ensures CountEscaped(s) == 0 <==> forall i :: 0 <= i < |s| ==> !Escaped(s[i])
    decreases |s|
  {
    if s != [] {
      CountEscapedZero(s[1..]);
      assert forall i :: 1 <= i < |s| ==> s[i] == s[1..][i - 1];
    }
  }

  /** A backslash is not escaped, so a literal backslash-t and a tab come out alike. */
  lemma QuotedNotInjective()
    ensures "\\t" != "\t" && Quoted("\\t") == Quoted("\t") == "\\t"
  {
    assert "\\t"[1..] == "t" && "t"[1..] == [];
    assert "\t"[1..] == [];
  }

  // ---------------------------------------------------------------------------------------------
  // writeHeader and writeLine

  /** Each value escaped. */
  function QuoteAll(vs: seq<string>): (r: seq<string>)
    ensures |r| == |vs| && forall j :: 0 <= j < |vs| ==> r[j] == Quoted(vs[j])
  {
    seq(|vs|, j requires 0 <= j < |vs| => Quoted(vs[j]))
  }

  /** A tab line: the escaped values joined by tabs, then `\n`. */
  function TabRow(vs: seq<string>): string
  {
    Join(QuoteAll(vs), "\t") + "\n"
  }

  /** The loop shared by `writeHeader` and `writeLine`. */
  method WriteRow(vs: seq<string>) returns (s: string)
    ensures s == TabRow(vs)
  {
    s := [];
    var i := 0;
    while i < |vs|
      invariant i <= |vs|
      invariant s == Join(QuoteAll(vs[..i]), "\t")
    {
      var q := QuoteTab(vs[i]);
      WriteRowStep(vs, i, s);
      if i > 0 {
        s := s + "\t";
      }
      s := s + q;
      i := i + 1;
    }
    WholePrefix(vs);
    s := s + "\n";
  }

  /** One round of `WriteRow`'s loop: the separator, if any, and the next escaped value. */
  lemma WriteRowStep(vs: seq<string>, i: nat, s: string)
    requires i < |vs| && s == Join(QuoteAll(vs[..i]), "\t")
    ensures (if i > 0 then s + "\t" else s) + Quoted(vs[i]) == Join(QuoteAll(vs[..i + 1]), "\t")
  {
    var q := Quoted(vs[i]);
    assert vs[..i + 1] == vs[..i] + [vs[i]];
    assert QuoteAll(vs[..i + 1]) == QuoteAll(vs[..i]) + [q];
    JoinSnoc(QuoteAll(vs[..i]), q, "\t");
    if i == 0 {
      assert QuoteAll(vs[..i]) == [];
    }
  }

  /** All of a sequence is its longest prefix. */
  lemma WholePrefix<T>(vs: seq<T>)
    ensures vs[..|vs|] == vs
  {
  }


  /** Outside quotes, a tab ends the value. */
  lemma SplitTab(after: string, fields: seq<string>, sb: string)
    ensures SplitFrom(TabFormat, "\t" + after, fields, sb, false) == SplitFrom(TabFormat, after, fields + [sb], "", false)
  {
    assert ("\t" + after)[1..] == after;
  }

  /** A value free of NUL (the tab format's quote rune) and U+FFFD. */
  predicate Plain(v: string)
  {
    '\0' !in v && '\U{FFFD}' !in v
  }

  /** An escaped plain value is read back as is by the tab format's `splitLine`. */
  lemma SplitQuotedValue(v: string, rest: string, fields: seq<string>)
    requires Plain(v)
    ensures SplitFrom(TabFormat, Quoted(v) + rest, fields, "", false) == SplitFrom(TabFormat, rest, fields, Quoted(v), false)
  {
    var w := Quoted(v);
    PlainQuoted(v);
    Exporter.SplitPlain(TabFormat, w, rest, fields, "");
    assert "" + w == w;
  }

  /** Escaping adds no NUL and no U+FFFD. */
  lemma {:induction false} PlainQuoted(v: string)
    requires Plain(v)
    ensures Plain(Quoted(v))
    decreases |v|
  {
    if v != [] {
      assert Plain(v[1..]) by { assert forall i :: 0 <= i < |v[1..]| ==> v[1..][i] == v[i + 1]; }
      PlainQuoted(v[1..]);
    }
  }

  /**
   * A tab line reads back, with the tab format's `splitLine`, as the escaped values, provided no
   * value holds NUL or U+FFFD and the last escaped value is not empty.
   */
  lemma {:induction false} TabRowReadsBack(vs: seq<string>, fields: seq<string>)
    requires |vs| >= 1 && vs[|vs| - 1] != []
    requires forall j :: 0 <= j < |vs| ==> Plain(vs[j])
    ensures SplitFrom(TabFormat, TabRow(vs), fields, "", false) == fields + QuoteAll(vs)
    decreases |vs|
  {
    var q := Quoted(vs[0]);
    if |vs| == 1 {
      SplitQuotedValue(vs[0], "\n", fields);
      assert TabRow(vs) == q + "\n";
      assert "\n"[1..] == [];
      assert QuoteAll(vs) == [q];
    } else {
      var tail := vs[1..];
      assert forall j :: 0 <= j < |tail| ==> tail[j] == vs[j + 1];
      TabRowReadsBack(tail, fields + [q]);
      TabRowStep(vs, fields);
    }
  }

  /** One step of `TabRowReadsBack`: the first value, a tab, then the line of the others. */
  lemma TabRowStep(vs: seq<string>, fields: seq<string>)
    requires |vs| >= 2 && Plain(vs[0])
    requires SplitFrom(TabFormat, TabRow(vs[1..]), fields + [Quoted(vs[0])], "", false)
          == fields + [Quoted(vs[0])] + QuoteAll(vs[1..])
    ensures SplitFrom(TabFormat, TabRow(vs), fields, "", false) == fields + QuoteAll(vs)
  {
    QuoteAllCons(vs);
    AppendCons(fields, Quoted(vs[0]), QuoteAll(vs[1..]));
    TabRowSplitHead(vs, fields);
  }

  /** Appending a value and then more values, regrouped. */
  lemma AppendCons(fields: seq<string>, q: string, more: seq<string>)
    ensures fields + [q] + more == fields + ([q] + more)
  {
  }

  /** Reading a tab line of several values: the first escaped value, then the line of the others. */
  lemma TabRowSplitHead(vs: seq<string>, fields: seq<string>)
    requires |vs| >= 2 && Plain(vs[0])
    ensures SplitFrom(TabFormat, TabRow(vs), fields, "", false)
         == SplitFrom(TabFormat, TabRow(vs[1..]), fields + [Quoted(vs[0])], "", false)
  {
    var q := Quoted(vs[0]);
    var tail := TabRow(vs[1..]);
    TabRowHead(vs);
    SplitQuotedValue(vs[0], "\t" + tail, fields);
    SplitTab(tail, fields, q);
  }

  /** The escaped values of several values: the first one's, then the others'. */
  lemma QuoteAllCons(vs: seq<string>)
    requires |vs| >= 1
    ensures QuoteAll(vs) == [Quoted(vs[0])] + QuoteAll(vs[1..])
  {
  }


  /** The first value of a tab line of several values, then a tab and the line of the others. */
  lemma TabRowHead(vs: seq<string>)
    requires |vs| >= 2
    ensures TabRow(vs) == Quoted(vs[0]) + ("\t" + TabRow(vs[1..]))
  {
    assert QuoteAll(vs)[1..] == QuoteAll(vs[1..]);
  }

  // ---------------------------------------------------------------------------------------------
  // WriteFile

  /**
   * What `writeLine` writes for a record's values: nothing at all for a file without a header
   * (as written), or the tab line (`fixed`, the evidently intended behaviour).
   */
  function RowOut(m: Mode, fixed: bool, values: seq<string>): string
  {
    if m.noHeader && !fixed then [] else TabRow(values)
  }

  /** What a run of `WriteFile` produces: the text written and the file's state at the end. */
  datatype TabRun = TabRun(out: string, after: ParserState)

  /** The same run with `s` written before it. */
  function Put(s: string, r: TabRun): TabRun
  {
    r.(out := s + r.out)
  }

  /**
   * What a data record writes, `q` being the state after its read: the header's line first when
   * the header step is not done (and the file has one), then the record's line.
   */
  function DataText(m: Mode, fixed: bool, q: ParserState, wrote: bool, values: seq<string>): string
  {
    (if !wrote && !m.noHeader then TabRow(Exporter.HeaderNames(q)) else []) + RowOut(m, fixed, values)
  }

  /**
   * `WriteFile` from parser state `p`, `wrote` telling whether the header step is done: comments
   * pass through when `show` is set; data records write `DataText`. Nothing here fails.
   */
  function TabFrom(f: Format, m: Mode, show: bool, fixed: bool, p: ParserState, wrote: bool): TabRun
    decreases |p.pending|
  {
    var n := NextRecord(f, m, p);
    var q := n.1;
    if n.0.EndOfFile? then TabRun([], q)
    else if n.0.rec.values.None? then
      Put(if show then n.0.rec.rawString else [], TabFrom(f, m, show, fixed, q, wrote))
    else
      Put(DataText(m, fixed, q, wrote, n.0.rec.values.value), TabFrom(f, m, show, fixed, q, true))
  }

  /** The tab lines of several records, one after the other. */
  function Rows(rows: seq<seq<string>>): string
  {
    if rows == [] then [] else TabRow(rows[0]) + Rows(rows[1..])
  }

  /** The header as it stands once the first data record from `p` on has been read, if there is one. */
  function FirstHeader(f: Format, m: Mode, p: ParserState): Option<seq<string>>
    decreases |p.pending|
  {
    var n := NextRecord(f, m, p);
    if n.0.EndOfFile? then None
    else if n.0.rec.values.None? then FirstHeader(f, m, n.1)
    else Some(Exporter.HeaderNames(n.1))
  }

  /** After the header step, with comments hidden, every data record writes its tab line, in order. */
  lemma {:induction false} TabFromRows(f: Format, m: Mode, fixed: bool, p: ParserState)
    requires !m.noHeader || fixed
    ensures TabFrom(f, m, false, fixed, p, true).out == Rows(DataRows(f, m, p))
    decreases |p.pending|
  {
    var n := NextRecord(f, m, p);
    if n.0.Record? {
      TabFromRows(f, m, fixed, n.1);
      if n.0.rec.values.Some? {
        TabRowsData(f, m, fixed, p);
      }
    }
  }

  /** One data record of `TabFromRows`. */
  lemma TabRowsData(f: Format, m: Mode, fixed: bool, p: ParserState)
    requires !m.noHeader || fixed
    requires NextRecord(f, m, p).0.Record? && NextRecord(f, m, p).0.rec.values.Some?
    requires TabFrom(f, m, false, fixed, NextRecord(f, m, p).1, true).out == Rows(DataRows(f, m, NextRecord(f, m, p).1))
    ensures TabFrom(f, m, false, fixed, p, true).out == Rows(DataRows(f, m, p))
  {
    var n := NextRecord(f, m, p);
    var v := n.0.rec.values.value;
    var rows := DataRows(f, m, p);
    assert rows == [v] + DataRows(f, m, n.1);
    assert rows[1..] == DataRows(f, m, n.1);
    assert DataText(m, fixed, n.1, true, v) == TabRow(v);
  }

  /**
   * With a header and comments hidden, `WriteFile` writes the header's line once, before the first
   * data record, then the line of every data record in order; a file without data writes nothing.
   */
  lemma {:induction false} TabFromHeaderOnce(f: Format, m: Mode, fixed: bool, p: ParserState)
    requires !m.noHeader
    ensures TabFrom(f, m, false, fixed, p, false).out
         == (if FirstHeader(f, m, p).Some? then TabRow(FirstHeader(f, m, p).value) else []) + Rows(DataRows(f, m, p))
    decreases |p.pending|
  {
    var n := NextRecord(f, m, p);
    if n.0.Record? {
      if n.0.rec.values.None? {
        TabFromHeaderOnce(f, m, fixed, n.1);
        HeaderOnceAtComment(f, m, fixed, p, n.0.rec, n.1);
      } else {
        TabFromRows(f, m, fixed, n.1);
        HeaderOnceAtData(f, m, fixed, p, n.0.rec, n.1);
      }
    }
  }

  /** `TabFromHeaderOnce` at a comment, from its value after the comment. */
  lemma HeaderOnceAtComment(f: Format, m: Mode, fixed: bool, p: ParserState, rec: TextRecord, q: ParserState)
    requires NextRecord(f, m, p) == (Record(rec), q) && rec.values.None?
    requires TabFrom(f, m, false, fixed, q, false).out
          == (if FirstHeader(f, m, q).Some? then TabRow(FirstHeader(f, m, q).value) else []) + Rows(DataRows(f, m, q))
    ensures TabFrom(f, m, false, fixed, p, false).out
         == (if FirstHeader(f, m, p).Some? then TabRow(FirstHeader(f, m, p).value) else []) + Rows(DataRows(f, m, p))
  {
    assert TabFrom(f, m, false, fixed, p, false).out == [] + TabFrom(f, m, false, fixed, q, false).out;
  }

  /** `TabFromHeaderOnce` at the first data record, from the rows after it. */
  lemma HeaderOnceAtData(f: Format, m: Mode, fixed: bool, p: ParserState, rec: TextRecord, q: ParserState)
    requires !m.noHeader && NextRecord(f, m, p) == (Record(rec), q) && rec.values.Some?
    requires TabFrom(f, m, false, fixed, q, true).out == Rows(DataRows(f, m, q))
    ensures TabFrom(f, m, false, fixed, p, false).out
         == (if FirstHeader(f, m, p).Some? then TabRow(FirstHeader(f, m, p).value) else []) + Rows(DataRows(f, m, p))
  {
    var v, rest := rec.values.value, DataRows(f, m, q);
    FirstDataRecord(f, m, p, rec, q);
    TabFromAtData(f, m, fixed, p, rec, q);
    RowsCons(v, rest);
  }

  /** The first data record read from `p` fixes the header and heads the data rows. */
  lemma FirstDataRecord(f: Format, m: Mode, p: ParserState, rec: TextRecord, q: ParserState)
    requires NextRecord(f, m, p) == (Record(rec), q) && rec.values.Some?
    ensures FirstHeader(f, m, p) == Some(Exporter.HeaderNames(q))
    ensures DataRows(f, m, p) == [rec.values.value] + DataRows(f, m, q)
  {
  }

  /** `TabFrom` before the header step, at a data record: the header's line, the record's, then the rest. */
  lemma TabFromAtData(f: Format, m: Mode, fixed: bool, p: ParserState, rec: TextRecord, q: ParserState)
    requires !m.noHeader && NextRecord(f, m, p) == (Record(rec), q) && rec.values.Some?
    ensures TabFrom(f, m, false, fixed, p, false).out
         == TabRow(Exporter.HeaderNames(q)) + TabRow(rec.values.value) + TabFrom(f, m, false, fixed, q, true).out
  {
  }

  /** The tab lines of a row and then more rows. */
  lemma RowsCons(v: seq<string>, rest: seq<seq<string>>)
    ensures Rows([v] + rest) == TabRow(v) + Rows(rest)
  {
    assert ([v] + rest)[1..] == rest;
  }

  /** As written: a file without a header, comments hidden, produces no output at all. */
  lemma {:induction false} TabFromNoHeaderSilent(f: Format, m: Mode, p: ParserState, wrote: bool)
    requires m.noHeader
    ensures TabFrom(f, m, false, false, p, wrote).out == []
    decreases |p.pending|
  {
    var n := NextRecord(f, m, p);
    if n.0.Record? {
      TabFromNoHeaderSilent(f, m, n.1, n.0.rec.values.Some? || wrote);
    }
  }

  /** Corrected: a file without a header, comments hidden, writes the line of every data record. */
  lemma TabFromNoHeaderCorrected(f: Format, m: Mode, p: ParserState, wrote: bool)
    requires m.noHeader
    ensures TabFrom(f, m, false, true, p, wrote).out == Rows(DataRows(f, m, p))
  {
    TabFromRowsAnyWrote(f, m, p, wrote);
    TabFromRows(f, m, true, p);
  }

  /**
   * The discrepancy: for a file without a header that holds a data record, the code as written
   * writes nothing (comments hidden) where the corrected `writeLine` writes the records' lines.
   */
  lemma NoHeaderRowsLost(f: Format, m: Mode, p: ParserState)
    requires m.noHeader && DataRows(f, m, p) != []
    ensures TabFrom(f, m, false, false, p, false).out == []
    ensures TabFrom(f, m, false, true, p, false).out != []
  {
    TabFromNoHeaderSilent(f, m, p, false);
    TabFromNoHeaderCorrected(f, m, p, false);
    var rows := DataRows(f, m, p);
    assert |TabRow(rows[0])| > 0;
  }

  /** Without a header the header step writes nothing, so `wrote` makes no difference. */
  lemma {:induction false} TabFromRowsAnyWrote(f: Format, m: Mode, p: ParserState, wrote: bool)
    requires m.noHeader
    ensures TabFrom(f, m, false, true, p, wrote) == TabFrom(f, m, false, true, p, true)
    decreases |p.pending|
  {
    var n := NextRecord(f, m, p);
    if n.0.Record? && n.0.rec.values.None? {
      TabFromRowsAnyWrote(f, m, n.1, wrote);
    }
  }

  class CSVExporter {
    const txt: DelimitedTextFile
    var showComments: bool

    /** `NewCSVExporter`: comments are not shown. */
    constructor NewCSVExporter(f: DelimitedTextFile)
      ensures txt == f && !showComments
    {
      txt := f;
      showComments := false;
    }

    /** `WithShowComments`: sets the flag and returns the exporter. */
    method WithShowComments(b: bool) returns (t: CSVExporter)
      modifies this
      ensures t == this && showComments == b
    {
      showComments := b;
      t := this;
    }

    /** `writeHeader`: nothing without a header, else the header's tab line. */
    method WriteHeader() returns (s: string)
      ensures s == if txt.noHeader then [] else TabRow(Exporter.HeaderNames(txt.State()))
    {
      if txt.noHeader {
        return [];
      }
      var header := if txt.Header.Some? then txt.Header.value else [];
      s := WriteRow(header);
    }

    /** `writeLine`, as written: nothing without a header, else the record's tab line. */
    method WriteLine(values: seq<string>) returns (s: string)
      ensures s == RowOut(txt.Modes(), false, values)
    {
      if txt.noHeader {
        return [];
      }
      s := WriteRow(values);
    }

    /** `WriteFile`: reads the whole file, writing what `TabFrom` describes for the code as written. */
    method WriteFile() returns (out: string)
      modifies txt`next, txt`hasNext, txt`rest, txt`curLineNum, txt`curDataLineNum, txt`Header, txt`lastComment,
               txt`rawHeaderLine
      ensures TabRun(out, txt.State()) == TabFrom(txt.Fmt(), txt.Modes(), showComments, false, old(txt.State()), false)
    {
      ghost var f, m := txt.Fmt(), txt.Modes();
      ghost var total := TabFrom(f, m, showComments, false, txt.State(), false);
      out := [];
      var wrote := false;
      PutNothing(total);
      while true
        invariant txt.Fmt() == f && txt.Modes() == m
        invariant total == Put(out, TabFrom(f, m, showComments, false, txt.State(), wrote))
        decreases |txt.State().pending|
      {
        ghost var p := txt.State();
        var r := txt.ReadLine();
        if r.EndOfFile? {
          TabAtEnd(f, m, showComments, p, wrote, out, txt.State());
          return;
        }
        var rec := r.rec;
        if rec.values.None? {
          TabAtComment(f, m, showComments, p, wrote, out, rec, txt.State());
          out := out + if showComments then rec.rawString else [];
          continue;
        }
        TabAtData(f, m, showComments, p, wrote, out, rec, txt.State());
        var h: string := [];
        if !wrote {
          if !txt.noHeader {
            h := WriteHeader();
          }
        }
        var line := WriteLine(rec.values.value);
        DataTextParts(m, txt.State(), wrote, rec.values.value, h, line);
        wrote := true;
        out := out + (h + line);
      }
    }
  }

  /** The header step's text and the record's line make up `DataText`. */
  lemma DataTextParts(m: Mode, q: ParserState, wrote: bool, values: seq<string>, h: string, line: string)
    requires h == if !wrote && !m.noHeader then TabRow(Exporter.HeaderNames(q)) else []
    requires line == RowOut(m, false, values)
    ensures h + line == DataText(m, false, q, wrote, values)
  {
  }

  /** A run with nothing written before it. */
  lemma PutNothing(r: TabRun)
    ensures r == Put([], r)
  {
    assert [] + r.out == r.out;
  }

  /** Writing `out` and then `s` before a run. */
  lemma PutPut(out: string, s: string, r: TabRun)
    ensures Put(out, Put(s, r)) == Put(out + s, r)
  {
    assert out + (s + r.out) == (out + s) + r.out;
  }

  /** `WriteFile`'s run, at the end of the file. */
  lemma TabAtEnd(f: Format, m: Mode, show: bool, p: ParserState, wrote: bool, out: string, q: ParserState)
    requires NextRecord(f, m, p) == (EndOfFile, q)
    ensures Put(out, TabFrom(f, m, show, false, p, wrote)) == TabRun(out, q)
  {
    assert out + [] == out;
  }

  /** `WriteFile`'s run, at a comment record `rec`. */
  lemma TabAtComment(f: Format, m: Mode, show: bool, p: ParserState, wrote: bool, out: string, rec: TextRecord,
                     q: ParserState)
    requires NextRecord(f, m, p) == (Record(rec), q) && rec.values.None?
    ensures Put(out, TabFrom(f, m, show, false, p, wrote))
         == Put(out + if show then rec.rawString else [], TabFrom(f, m, show, false, q, wrote))
  {
    PutPut(out, if show then rec.rawString else [], TabFrom(f, m, show, false, q, wrote));
  }

  /** `WriteFile`'s run, at a data record `rec`. */
  lemma TabAtData(f: Format, m: Mode, show: bool, p: ParserState, wrote: bool, out: string, rec: TextRecord,
                  q: ParserState)
    requires NextRecord(f, m, p) == (Record(rec), q) && rec.values.Some?
    ensures Put(out, TabFrom(f, m, show, false, p, wrote))
         == Put(out + DataText(m, false, q, wrote, rec.values.value), TabFrom(f, m, show, false, q, true))
  {
    PutPut(out, DataText(m, false, q, wrote, rec.values.value), TabFrom(f, m, show, false, q, true));
  }
}
