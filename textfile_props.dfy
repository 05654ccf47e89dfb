/**
 * Properties of reading a delimited text file, stated over the value model `NextRecord` that
 * `DelimitedTextFile.ReadLine` is proved to follow.
 */
module TextFileProps {
  import opened StringUtil
  import opened TextFile

  /**
   * Off a comment line, `splitLine` splits a line exactly as reading the line from the file does,
   * as long as the line holds no U+FFFD (where `splitLine` stops).
   */
  lemma {:induction false} SplitFromMatchesScan(f: Format, s: string, st: ScanState)
    requires '\U{FFFD}' !in s
    requires !st.isComment && (st.first ==> s == [] || s[0] != f.comment)
    ensures SplitFrom(f, s, st.fields, st.sb, st.inQuote) == Fields(ScanRecord(f, s, st).0)
    decreases |s|
  {
    if s != [] {
      var b, rest := s[0], s[1..];
      var s1 := Consume(f, st, b);
      assert '\U{FFFD}' !in rest by { assert forall i :: 0 <= i < |rest| ==> rest[i] == s[i + 1]; }
      if s1.inQuote {
        if b == f.quote {
          if rest != [] && rest[0] == f.quote {
            assert '\U{FFFD}' !in rest[1..] by { assert forall i :: 0 <= i < |rest[1..]| ==> rest[1..][i] == rest[i + 1]; }
            SplitFromMatchesScan(f, rest[1..], s1.(sb := s1.sb + [b], raw := s1.raw + [rest[0]],
                                                  byteSize := s1.byteSize + RuneLen(rest[0])));
          } else { SplitFromMatchesScan(f, rest, s1.(inQuote := false)); }
        } else { SplitFromMatchesScan(f, rest, s1.(sb := s1.sb + [b])); }
      } else if b == f.quote { SplitFromMatchesScan(f, rest, s1.(inQuote := true)); }
      else if b == '\r' { SplitFromMatchesScan(f, rest, s1); }
      else if b == '\n' { }
      else if b == f.delim { SplitFromMatchesScan(f, rest, s1.(fields := s1.fields + [s1.sb], sb := "")); }
      else { SplitFromMatchesScan(f, rest, s1.(sb := s1.sb + [b])); }
    }
  }

  /** `splitLine` of a line that is not a comment gives the values reading that line gives. */
  lemma SplitLineMatchesScan(f: Format, s: string)
    requires '\U{FFFD}' !in s
    requires s == [] || s[0] != f.comment
    ensures SplitLine(f, s) == Fields(ScanRecord(f, s, StartScan).0)
  {
    SplitFromMatchesScan(f, s, StartScan);
  }

  /**
   * Line counters: every record carries the new line number, which only grows; a data line also
   * advances the data-line counter by one and carries it, and a comment line carries -1 and leaves
   * the data-line counter alone.
   */
  lemma {:induction false} ReadLineCounters(f: Format, m: Mode, p: ParserState)
    ensures var (r, q) := NextRecord(f, m, p);
      && q.curLineNum >= p.curLineNum
      && (r.Record? ==> r.rec.lineNum == q.curLineNum > p.curLineNum)
      && (r.Record? && r.rec.values.Some? ==>
            r.rec.dataLineNum == q.curDataLineNum == p.curDataLineNum + 1)
      && (r.Record? && r.rec.values.None? ==>
            r.rec.dataLineNum == -1 && q.curDataLineNum == p.curDataLineNum)
    decreases |p.pending|
  {
    var sc := ScanRecord(f, p.pending, StartScan);
    match AfterLine(f, m, p.(pending := sc.1), sc.0, sc.2)
    case Continue(p') =>
      ReadLineCounters(f, m, p');
    case Done(r, p') =>
  }

  /** In no-header mode, widening the generated names gives the generated names of the new width. */
  lemma GrowColNames(k: nat, n: nat)
    ensures Grow(ColNames(k), n, true) == ColNames(if k < n then n else k)
  {
    if k < n {
      assert ColNames(k) + ColNames(n)[k..] == ColNames(n);
    }
  }

  /**
   * The header only grows: once set it stays set, keeps its columns as a prefix, and freezes the
   * remembered comment line; every data record is non-empty and no wider than the header after it.
   */
  lemma {:induction false} ReadLineHeader(f: Format, m: Mode, p: ParserState)
    ensures var (r, q) := NextRecord(f, m, p);
      && (p.header.Some? ==> q.header.Some? && |q.header.value| >= |p.header.value|
                             && q.header.value[..|p.header.value|] == p.header.value
                             && q.lastComment == p.lastComment)
      && (r.Record? && r.rec.values.Some? ==>
            q.header.Some? && 0 < |r.rec.values.value| <= |q.header.value|)
    decreases |p.pending|
  {
    var sc := ScanRecord(f, p.pending, StartScan);
    var width := |Fields(sc.0)|;
    match AfterLine(f, m, p.(pending := sc.1), sc.0, sc.2)
    case Continue(p') =>
      ReadLineHeader(f, m, p');
    case Done(r, p') =>
  }

  /** In no-header mode the header is always `col1`, `col2`, ... up to the widest line so far. */
  lemma {:induction false} ReadLineNoHeaderNames(f: Format, m: Mode, p: ParserState)
    requires m.noHeader
    requires p.header.Some? ==> p.header.value == ColNames(|p.header.value|)
    ensures var q := NextRecord(f, m, p).1;
      q.header.Some? ==> q.header.value == ColNames(|q.header.value|)
    decreases |p.pending|
  {
    var sc := ScanRecord(f, p.pending, StartScan);
    var width := |Fields(sc.0)|;
    match AfterLine(f, m, p.(pending := sc.1), sc.0, sc.2)
    case Continue(p') =>
      ReadLineNoHeaderNames(f, m, p');
    case Done(r, p') =>
      GrowColNames(if p.header.Some? then |p.header.value| else width, width);
  }

  /** `part` is read from `whole` directly before `rest`, which ends `whole`. */
  predicate ReadBefore(whole: seq<char>, part: seq<char>, rest: seq<char>)
  {
    |part| + |rest| <= |whole| && whole == whole[..|whole| - |rest| - |part|] + part + rest
  }

  lemma ReadBeforeDirect(part: seq<char>, rest: seq<char>)
    ensures ReadBefore(part + rest, part, rest)
  {
    assert (part + rest)[..|part + rest| - |rest| - |part|] == [];
  }

  lemma ReadBeforeSkip(skipped: seq<char>, whole: seq<char>, part: seq<char>, rest: seq<char>)
    requires ReadBefore(whole, part, rest)
    ensures ReadBefore(skipped + whole, part, rest)
  {
    var k := |whole| - |rest| - |part|;
    assert (skipped + whole)[..|skipped + whole| - |rest| - |part|] == skipped + whole[..k];
  }

  /**
   * A record's raw text is the stretch of input read directly before what is left (blank lines
   * and, in the default mode, the header line may precede it).
   */
  lemma {:induction false} ReadLineRaw(f: Format, m: Mode, p: ParserState)
    ensures var (r, q) := NextRecord(f, m, p);
      r.Record? ==> r.rec.rawString != [] && ReadBefore(p.pending, r.rec.rawString, q.pending)
    decreases |p.pending|
  {
    var sc := ScanRecord(f, p.pending, StartScan);
    ScanRaw(f, p.pending, StartScan);
    assert sc.0.raw + sc.1 == p.pending;
    match AfterLine(f, m, p.(pending := sc.1), sc.0, sc.2)
    case Continue(p') =>
      ReadLineRaw(f, m, p');
      var (r, q) := NextRecord(f, m, p');
      if r.Record? {
        ReadBeforeSkip(sc.0.raw, sc.1, r.rec.rawString, q.pending);
      }
    case Done(r, p') =>
      if r.Record? {
        ReadBeforeDirect(sc.0.raw, sc.1);
      }
  }

  /**
   * A record's byte size is the UTF-8 length of its raw text; a comment record's text starts with
   * the comment rune; and a line the end of input did not cut short ends with its line feed.
   */
  lemma {:induction false} ReadLineText(f: Format, m: Mode, p: ParserState)
    ensures var (r, q) := NextRecord(f, m, p);
      r.Record? ==>
        && r.rec.byteSize == EncodedLen(r.rec.rawString)
        && (r.rec.values.None? ==> r.rec.rawString != [] && r.rec.rawString[0] == f.comment)
        && (q.pending != [] ==> r.rec.rawString != [] && r.rec.rawString[|r.rec.rawString| - 1] == '\n')
    decreases |p.pending|
  {
    var sc := ScanRecord(f, p.pending, StartScan);
    ScanRaw(f, p.pending, StartScan);
    ScanSize(f, p.pending, StartScan);
    ScanEnds(f, p.pending, StartScan);
    match AfterLine(f, m, p.(pending := sc.1), sc.0, sc.2)
    case Continue(p') =>
      ReadLineText(f, m, p');
    case Done(r, p') =>
      if r.Record? && r.rec.values.None? {
        assert p.pending != [];
        assert sc.0.raw[0] == p.pending[0] by { assert sc.0.raw + sc.1 == p.pending; }
      }
  }

  /** Reading a line of two one-rune values `a`, `b`. */
  lemma ScanTwoValues(f: Format, a: char, b: char, rest: seq<char>)
    requires f.delim != f.quote && f.delim != f.comment && f.delim !in "\r\n" && f.quote != '\n'
    requires a != f.delim && a != f.quote && a != f.comment && a !in "\r\n"
    requires b != f.delim && b != f.quote && b !in "\r\n"
    ensures ScanRecord(f, [a, f.delim, b, '\n'] + rest, StartScan)
         == (ScanState([[a]], [b], [a, f.delim, b, '\n'], RuneLen(a) + RuneLen(f.delim) + RuneLen(b) + 1,
                       false, false, false), rest, false)
  {
    var in0 := [a, f.delim, b, '\n'] + rest;
    var s1 := Consume(f, StartScan, a);
    s1 := s1.(sb := s1.sb + [a]);
    assert s1.sb == [a];
    assert ScanRecord(f, in0, StartScan) == ScanRecord(f, in0[1..], s1);
    var s2 := Consume(f, s1, f.delim);
    s2 := s2.(fields := s2.fields + [s2.sb], sb := "");
    assert ScanRecord(f, in0[1..], s1) == ScanRecord(f, in0[2..], s2) by { assert in0[1..][1..] == in0[2..]; }
    var s3 := Consume(f, s2, b);
    s3 := s3.(sb := s3.sb + [b]);
    assert ScanRecord(f, in0[2..], s2) == ScanRecord(f, in0[3..], s3) by { assert in0[2..][1..] == in0[3..]; }
    var s4 := Consume(f, s3, '\n');
    assert ScanRecord(f, in0[3..], s3) == (s4, in0[4..], false) by { assert in0[3..][1..] == in0[4..]; }
    assert s4.raw == [a, f.delim, b, '\n'];
    assert s4.fields == [[a]];
    assert s4.sb == [b];
    assert in0[4..] == rest;
  }

  /**
   * In the default mode the first data line is the header and is not returned: `a<TAB>b` then
   * `1<TAB>2` reads as the record `1`, `2` (line 2, data line 1) under the header `a`, `b`.
   */
  lemma DefaultHeaderExample()
    ensures NextRecord(TabFormat, Mode(false, false), Initial("a\tb\n1\t2\n"))
         == (Record(TextRecord(Some(["1", "2"]), 2, 1, "1\t2\n", false, 4)),
             ParserState("", 2, 1, Some(["a", "b"]), "", "a\tb\n"))
  {
    var f, m := TabFormat, Mode(false, false);
    var p1 := ParserState("1\t2\n", 1, 0, Some(["a", "b"]), "", "a\tb\n");
    HeaderLineStep();
    assert NextRecord(f, m, Initial("a\tb\n1\t2\n")) == NextRecord(f, m, p1);
    DataLineStep();
  }

  lemma HeaderLineStep()
    ensures var sc := ScanRecord(TabFormat, "a\tb\n1\t2\n", StartScan);
      AfterLine(TabFormat, Mode(false, false), Initial(sc.1), sc.0, sc.2)
        == Continue(ParserState("1\t2\n", 1, 0, Some(["a", "b"]), "", "a\tb\n"))
  {
    assert "a\tb\n1\t2\n" == ['a', '\t', 'b', '\n'] + "1\t2\n";
    ScanTwoValues(TabFormat, 'a', 'b', "1\t2\n");
    var sc := ScanRecord(TabFormat, "a\tb\n1\t2\n", StartScan);
    assert Fields(sc.0) == ["a", "b"];
  }

  lemma DataLineStep()
    ensures NextRecord(TabFormat, Mode(false, false), ParserState("1\t2\n", 1, 0, Some(["a", "b"]), "", "a\tb\n"))
         == (Record(TextRecord(Some(["1", "2"]), 2, 1, "1\t2\n", false, 4)),
             ParserState("", 2, 1, Some(["a", "b"]), "", "a\tb\n"))
  {
    assert "1\t2\n" == ['1', '\t', '2', '\n'] + "";
    ScanTwoValues(TabFormat, '1', '2', "");
    var sc := ScanRecord(TabFormat, "1\t2\n", StartScan);
    assert Fields(sc.0) == ["1", "2"];
  }
  /**
   * In header-comment mode the last comment line before the data names the columns and every data
   * line is returned: `#a<TAB>b` then `1<TAB>2` reads as the comment, then the record `1`, `2`
   * under the header `a`, `b`.
   */
  lemma HeaderCommentExample()
    ensures var (r1, q1) := NextRecord(TabFormat, Mode(false, true), Initial("#a\tb\n1\t2\n"));
      && r1 == Record(TextRecord(None, 1, -1, "#a\tb\n", false, 5))
      && NextRecord(TabFormat, Mode(false, true), q1)
         == (Record(TextRecord(Some(["1", "2"]), 2, 1, "1\t2\n", false, 4)),
             ParserState("", 2, 1, Some(["a", "b"]), "#a\tb\n", ""))
  {
    CommentLineStep();
    CommentedDataStep();
  }

  lemma CommentedDataStep()
    ensures NextRecord(TabFormat, Mode(false, true), ParserState("1\t2\n", 1, 0, None, "#a\tb\n", ""))
         == (Record(TextRecord(Some(["1", "2"]), 2, 1, "1\t2\n", false, 4)),
             ParserState("", 2, 1, Some(["a", "b"]), "#a\tb\n", ""))
  {
    assert "1\t2\n" == ['1', '\t', '2', '\n'] + "";
    ScanTwoValues(TabFormat, '1', '2', "");
    CommentedDataAfter(ScanRecord(TabFormat, "1\t2\n", StartScan).0);
  }

  /** The decision after the data line `1<TAB>2`, which takes its header from the comment. */
  lemma CommentedDataAfter(st: ScanState)
    requires st == ScanState([['1']], ['2'], "1\t2\n", 4, false, false, false)
    ensures AfterLine(TabFormat, Mode(false, true), ParserState("", 1, 0, None, "#a\tb\n", ""), st, false)
         == Done(Record(TextRecord(Some(["1", "2"]), 2, 1, "1\t2\n", false, 4)),
                 ParserState("", 2, 1, Some(["a", "b"]), "#a\tb\n", ""))
  {
    HeaderFromComment();
    assert Fields(st) == ["1", "2"];
    assert DataHeader(TabFormat, Mode(false, true), None, "#a\tb\n", 2) == ["a", "b"];
  }

  lemma CommentLineStep()
    ensures NextRecord(TabFormat, Mode(false, true), Initial("#a\tb\n1\t2\n"))
         == (Record(TextRecord(None, 1, -1, "#a\tb\n", false, 5)),
             ParserState("1\t2\n", 1, 0, None, "#a\tb\n", ""))
  {
    ScanCommentLine();
  }

  /** The scan of the line `#a<TAB>b`: a comment of five bytes, one field, the next line left. */
  lemma ScanCommentLine()
    ensures var sc := ScanRecord(TabFormat, "#a\tb\n1\t2\n", StartScan);
      && sc.1 == "1\t2\n" && !sc.2 && sc.0.isComment && sc.0.raw == "#a\tb\n" && sc.0.byteSize == 5
      && Fields(sc.0) == ["#a\tb"]
  {
    var f := TabFormat;
    var in0 := "#a\tb\n1\t2\n";
    var s1 := Consume(f, StartScan, '#');
    s1 := s1.(sb := s1.sb + ['#']);
    assert ScanRecord(f, in0, StartScan) == ScanRecord(f, in0[1..], s1);
    var s2 := Consume(f, s1, 'a');
    s2 := s2.(sb := s2.sb + ['a']);
    assert ScanRecord(f, in0[1..], s1) == ScanRecord(f, in0[2..], s2) by { assert in0[1..][1..] == in0[2..]; }
    var s3 := Consume(f, s2, '\t');
    s3 := s3.(sb := s3.sb + ['\t']);
    assert ScanRecord(f, in0[2..], s2) == ScanRecord(f, in0[3..], s3) by { assert in0[2..][1..] == in0[3..]; }
    var s4 := Consume(f, s3, 'b');
    s4 := s4.(sb := s4.sb + ['b']);
    assert ScanRecord(f, in0[3..], s3) == ScanRecord(f, in0[4..], s4) by { assert in0[3..][1..] == in0[4..]; }
    var s5 := Consume(f, s4, '\n');
    assert ScanRecord(f, in0[4..], s4) == (s5, in0[5..], false) by { assert in0[4..][1..] == in0[5..]; }
    assert s5.raw == "#a\tb\n";
    assert s5.sb == "#a\tb" && s5.fields == [];
    assert Fields(s5) == ["#a\tb"];
    assert in0[5..] == "1\t2\n";
  }

  /** The comment `#a<TAB>b` names the columns `a`, `b`. */
  lemma HeaderFromComment()
    ensures FoundHeader(TabFormat, Mode(false, true), "#a\tb\n", 2) == Some(["a", "b"])
  {
    StripExample();
    SplitExample();
  }

  lemma StripExample()
    ensures StripLeading("#a\tb\n", '#') == "a\tb\n"
  {
    assert "#a\tb\n"[1..] == "a\tb\n";
    assert StripLeading("a\tb\n", '#') == "a\tb\n";
  }

  lemma SplitExample()
    ensures SplitLine(TabFormat, "a\tb\n") == ["a", "b"]
  {
    assert '\U{FFFD}' !in "a\tb\n";
    SplitLineMatchesScan(TabFormat, "a\tb\n");
    assert "a\tb\n" == ['a', '\t', 'b', '\n'] + "";
    ScanTwoValues(TabFormat, 'a', 'b', "");
    assert Fields(ScanRecord(TabFormat, "a\tb\n", StartScan).0) == ["a", "b"];
  }
  /**
   * Text never looks gzip-compressed: the corrected decision opens every UTF-8 file as plain text,
   * and the decision as written does so for every file of two bytes or more, failing on the rest.
   */
  lemma TextOpensPlain(s: string)
    ensures OpenCorrected(Encode(s)) == Plain
    ensures OpenDecision(Encode(s)) == (if |Encode(s)| < 2 then OpenFailed else Plain)
  {
    if |Encode(s)| >= 2 {
      TextIsNotGzip(s);
    }
  }

  /**
   * The one-byte file `a` fails to open (the two-byte `Peek` reports end of file), so `ReadLine`
   * reports end of file at once, while reading its text gives the record `a`.
   */
  lemma ShortFileLost()
    ensures Encode("a") == [0x61]
    ensures OpenDecision(Encode("a")) == OpenFailed && OpenCorrected(Encode("a")) == Plain
    ensures NextRecord(TabFormat, Mode(true, false), Initial("a")).0
         == Record(TextRecord(Some(["a"]), 1, 1, "a", false, 1))
  {
    assert "a"[..0] == [];
    var st := ScanState([], "a", "a", 1, false, false, false);
    ScanShortFile();
    ShortFileAfter(st);
  }

  /** The one-rune text `a` scans as one unterminated line. */
  lemma ScanShortFile()
    ensures ScanRecord(TabFormat, "a", StartScan) == (ScanState([], "a", "a", 1, false, false, false), [], true)
  {
    var s1 := Consume(TabFormat, StartScan, 'a');
    s1 := s1.(sb := s1.sb + ['a']);
    assert "a"[1..] == [];
    assert ScanRecord(TabFormat, "a", StartScan) == ScanRecord(TabFormat, "a"[1..], s1);
    assert s1.sb == "a" && s1.raw == "a";
  }

  /** Without a header, that line is the first data record, under the generated name `col1`. */
  lemma ShortFileAfter(st: ScanState)
    requires st == ScanState([], "a", "a", 1, false, false, false)
    ensures AfterLine(TabFormat, Mode(true, false), Initial("a").(pending := []), st, true).Done?
    ensures AfterLine(TabFormat, Mode(true, false), Initial("a").(pending := []), st, true).result
         == Record(TextRecord(Some(["a"]), 1, 1, "a", false, 1))
  {
    assert Fields(st) == ["a"];
  }
}
