/**
 * `TextExporter`: writes chosen columns of a delimited file, quoting CSV values where needed, with
 * the header first (once) and comment lines passed through on request.
 */
module Exporter {
  import opened StringUtil
  import opened TextColumns
  import opened TextFile
  import TextFileProps

  // ---------------------------------------------------------------------------------------------
  // csvQuoteString

  /** A value is quoted when it holds a line break, the quote rune (if the format has one) or the delimiter. */
  predicate NeedsQuote(f: Format, v: string)
  {
    '\r' in v || '\n' in v || (f.quote != '\0' && f.quote in v) || f.delim in v
  }

  /** `csvQuoteString`: the value, or the value in quotes with every quote rune doubled. */
  function CsvQuote(f: Format, v: string): (r: string)
    ensures !NeedsQuote(f, v) ==> r == v
    ensures NeedsQuote(f, v) ==> |r| == |v| + Count(v, f.quote) + 2 && r[0] == r[|r| - 1] == f.quote
  {
    if NeedsQuote(f, v) then [f.quote] + DoubleRune(v, f.quote) + [f.quote] else v
  }

  /** Inside quotes, `splitLine` reads a doubled value and its closing quote back as the value. */
  lemma {:induction false} SplitQuoted(f: Format, w: string, rest: string, fields: seq<string>, sb: string)
    requires '\U{FFFD}' !in w && f.quote != '\U{FFFD}'
    requires rest == [] || rest[0] != f.quote
    ensures SplitFrom(f, DoubleRune(w, f.quote) + [f.quote] + rest, fields, sb, true)
         == SplitFrom(f, rest, fields, sb + w, false)
    decreases |w|
  {
    var q := f.quote;
    if w == [] {
      DoubledEmpty(q, rest, sb);
      SplitCloseQuote(f, rest, fields, sb);
    } else {
      var c := w[0];
      var t := DoubleRune(w[1..], q) + [q] + rest;
      DoubledCons(w, q, rest);
      NotInTail(w, '\U{FFFD}');
      SplitQuoted(f, w[1..], rest, fields, sb + [c]);
      if c == q {
        SplitEscapedQuote(f, t, fields, sb);
      } else {
        SplitInQuote(f, c, t, fields, sb);
      }
      AppendHead(sb, w);
    }
  }

  /** The doubled empty value followed by the closing quote. */
  lemma DoubledEmpty(q: char, rest: string, sb: string)
    ensures DoubleRune([], q) + [q] + rest == [q] + rest && sb + [] == sb
  {
  }

  /** The doubled value, its first rune apart. */
  lemma DoubledCons(w: string, q: char, rest: string)
    requires w != []
    ensures DoubleRune(w, q) + [q] + rest == (if w[0] == q then [q, q] else [w[0]]) + (DoubleRune(w[1..], q) + [q] + rest)
  {
  }

  /** A rune missing from a string is missing from its tail. */
  lemma NotInTail(w: string, c: char)
    requires w != [] && c !in w
    ensures c !in w[1..]
  {
    assert forall i :: 0 <= i < |w[1..]| ==> w[1..][i] == w[i + 1];
  }

  /** A string's first rune appended, then its tail. */
  lemma AppendHead(sb: string, w: string)
    requires w != []
    ensures sb + [w[0]] + w[1..] == sb + w
  {
    assert w == [w[0]] + w[1..];
  }

  /** Inside quotes, a doubled quote reads as one quote rune of the value. */
  lemma SplitEscapedQuote(f: Format, t: string, fields: seq<string>, sb: string)
    requires f.quote != '\U{FFFD}'
    ensures SplitFrom(f, [f.quote, f.quote] + t, fields, sb, true) == SplitFrom(f, t, fields, sb + [f.quote], true)
  {
    assert ([f.quote, f.quote] + t)[1..][1..] == t;
  }

  /** Inside quotes, any rune but the quote and U+FFFD is a rune of the value. */
  lemma SplitInQuote(f: Format, c: char, t: string, fields: seq<string>, sb: string)
    requires c != f.quote && c != '\U{FFFD}'
    ensures SplitFrom(f, [c] + t, fields, sb, true) == SplitFrom(f, t, fields, sb + [c], true)
  {
    assert ([c] + t)[1..] == t;
  }

  /** Inside quotes, a quote not followed by another ends the quoted part. */
  lemma SplitCloseQuote(f: Format, rest: string, fields: seq<string>, sb: string)
    requires f.quote != '\U{FFFD}' && (rest == [] || rest[0] != f.quote)
    ensures SplitFrom(f, [f.quote] + rest, fields, sb, true) == SplitFrom(f, rest, fields, sb, false)
  {
    assert ([f.quote] + rest)[1..] == rest;
  }

  /** Outside quotes, a value free of quote, delimiter, line-break and U+FFFD runes is read back as is. */
  lemma {:induction false} SplitPlain(f: Format, w: string, rest: string, fields: seq<string>, sb: string)
    requires !NeedsQuote(f, w) && '\U{FFFD}' !in w && f.quote !in w
    ensures SplitFrom(f, w + rest, fields, sb, false) == SplitFrom(f, rest, fields, sb + w, false)
    decreases |w|
  {
    if w == [] {
      assert w + rest == rest;
      assert sb + w == sb;
    } else {
      var c := w[0];
      assert (w + rest)[0] == c && (w + rest)[1..] == w[1..] + rest;
      assert forall i :: 0 <= i < |w[1..]| ==> w[1..][i] == w[i + 1];
      SplitPlain(f, w[1..], rest, fields, sb + [c]);
      assert sb + [c] + w[1..] == sb + w by { assert w == [c] + w[1..]; }
    }
  }

  /** `splitLine` reads one quoted cell back as its value, whatever follows it (but a quote rune). */
  lemma SplitCell(f: Format, v: string, rest: string, fields: seq<string>, sb: string)
    requires f.quote != '\0' && f.quote != '\U{FFFD}' && '\U{FFFD}' !in v
    requires rest == [] || rest[0] != f.quote
    ensures SplitFrom(f, CsvQuote(f, v) + rest, fields, sb, false) == SplitFrom(f, rest, fields, sb + v, false)
  {
    var q := f.quote;
    if NeedsQuote(f, v) {
      var t := DoubleRune(v, q) + [q] + rest;
      assert CsvQuote(f, v) + rest == [q] + t;
      assert ([q] + t)[1..] == t;
      SplitQuoted(f, v, rest, fields, sb);
    } else {
      SplitPlain(f, v, rest, fields, sb);
    }
  }

  /**
   * Round trip: with a quote rune, `splitLine` reads a quoted non-empty value back as exactly that
   * one value (a value holding U+FFFD is cut there by `splitLine`).
   */
  lemma CsvQuoteRoundTrip(f: Format, v: string)
    requires v != [] && '\U{FFFD}' !in v
    requires f.quote != '\0' && f.quote != '\U{FFFD}'
    ensures SplitLine(f, CsvQuote(f, v)) == [v]
  {
    assert CsvQuote(f, v) + [] == CsvQuote(f, v);
    SplitCell(f, v, [], [], "");
    assert "" + v == v;
  }

  // ---------------------------------------------------------------------------------------------
  // writeLine and writeHeader

  /** The line end: `\r\n` when the file uses CR LF, else `\n`. */
  function Terminator(isCrLf: bool): string
  {
    if isCrLf then "\r\n" else "\n"
  }

  /** A value as written: quoted when the format has a quote rune, as is otherwise. */
  function CellText(f: Format, v: string): string
  {
    if f.quote != '\0' then CsvQuote(f, v) else v
  }

  /** The error for a column beyond the header: it names the column 1-based. */
  function OutOfBounds(idx: int): string
  {
    "Column index out of bounds: " + DecimalString(idx + 1)
  }

  /** Every column has been resolved to a position. */
  predicate Resolved(keys: seq<ColumnSpec>)
  {
    forall j :: 0 <= j < |keys| ==> keys[j].idx >= 0
  }

  /** The cell a column contributes: its value as written, or nothing past the record's end. */
  function CellAt(f: Format, k: ColumnSpec, values: seq<string>): string
    requires k.idx >= 0
  {
    if k.idx < |values| then CellText(f, values[k.idx]) else ""
  }

  /**
   * The loop of `writeLine` from column `i` on, for a header of `width` names: a delimiter before
   * every column but the first; a column beyond the header ends the line early with an error; a
   * column beyond the values writes nothing.
   */
  function LineFrom(f: Format, isCrLf: bool, width: int, keys: seq<ColumnSpec>, values: seq<string>, i: nat)
    : (r: (string, Option<string>))
    requires i <= |keys| && Resolved(keys)
    decreases |keys| - i
  {
    if i == |keys| then (Terminator(isCrLf), None)
    else
      var pre: string := if i > 0 then [f.delim] else [];
      if keys[i].idx >= width then (pre + Terminator(isCrLf), Some(OutOfBounds(keys[i].idx)))
      else
        var rest := LineFrom(f, isCrLf, width, keys, values, i + 1);
        (pre + CellAt(f, keys[i], values) + rest.0, rest.1)
  }

  /** `writeLine`: what is written for a record and the error, if any. */
  function LineOut(f: Format, isCrLf: bool, width: int, keys: seq<ColumnSpec>, values: seq<string>)
    : (string, Option<string>)
    requires Resolved(keys)
  {
    LineFrom(f, isCrLf, width, keys, values, 0)
  }

  /** `writeHeader`: the header's own names under the same columns, so the same loop. */
  function HeaderOut(f: Format, isCrLf: bool, header: seq<string>, keys: seq<ColumnSpec>): (string, Option<string>)
    requires Resolved(keys)
  {
    LineOut(f, isCrLf, |header|, keys, header)
  }

  /** The cells of all the columns. */
  function Cells(f: Format, keys: seq<ColumnSpec>, values: seq<string>): (r: seq<string>)
    requires Resolved(keys)
    ensures |r| == |keys|
  {
    seq(|keys|, j requires 0 <= j < |keys| => CellAt(f, keys[j], values))
  }

  /** The values the columns select, with `""` past the record's end. */
  function Selected(keys: seq<ColumnSpec>, values: seq<string>): (r: seq<string>)
    requires Resolved(keys)
    ensures |r| == |keys|
  {
    seq(|keys|, j requires 0 <= j < |keys| => if keys[j].idx < |values| then values[keys[j].idx] else "")
  }

  /** The first column beyond a header of `width` names, or the number of columns when there is none. */
  function FirstOut(keys: seq<ColumnSpec>, width: int): (k: nat)
    ensures k <= |keys|
    ensures forall j :: 0 <= j < k ==> keys[j].idx < width
    ensures k < |keys| ==> keys[k].idx >= width
    decreases |keys|
  {
    if keys == [] || keys[0].idx >= width then 0 else 1 + FirstOut(keys[1..], width)
  }

  /** What `writeLine` writes after the cells before the first column beyond the header. */
  function LineTail(f: Format, isCrLf: bool, k: nat, keys: seq<ColumnSpec>): string
  {
    (if k < |keys| then [f.delim] else []) + Terminator(isCrLf)
  }

  /** The written text from column `i` (not the first) on: each cell after a delimiter, then the tail. */
  lemma {:induction false} LineFromPrefixed(f: Format, isCrLf: bool, width: int, keys: seq<ColumnSpec>,
                                            values: seq<string>, cells: seq<string>, i: nat)
    requires Resolved(keys) && cells == Cells(f, keys, values)
    requires 1 <= i <= FirstOut(keys, width)
    ensures LineFrom(f, isCrLf, width, keys, values, i).0
         == Prefixed(cells[i..FirstOut(keys, width)], [f.delim]) + LineTail(f, isCrLf, FirstOut(keys, width), keys)
    decreases |keys| - i
  {
    var k := FirstOut(keys, width);
    if i < k {
      LineFromPrefixed(f, isCrLf, width, keys, values, cells, i + 1);
      LineFromPrefixedStep(f, isCrLf, width, keys, values, cells, i);
    } else {
      LineFromAtOut(f, isCrLf, width, keys, values, i);
    }
  }

  /** `LineFromPrefixed` at column `i`, from its value at the next column. */
  lemma LineFromPrefixedStep(f: Format, isCrLf: bool, width: int, keys: seq<ColumnSpec>,
                             values: seq<string>, cells: seq<string>, i: nat)
    requires Resolved(keys) && cells == Cells(f, keys, values)
    requires 1 <= i < FirstOut(keys, width)
    requires LineFrom(f, isCrLf, width, keys, values, i + 1).0
          == Prefixed(cells[i + 1..FirstOut(keys, width)], [f.delim]) + LineTail(f, isCrLf, FirstOut(keys, width), keys)
    ensures LineFrom(f, isCrLf, width, keys, values, i).0
         == Prefixed(cells[i..FirstOut(keys, width)], [f.delim]) + LineTail(f, isCrLf, FirstOut(keys, width), keys)
  {
    var k := FirstOut(keys, width);
    LineFromStep(f, isCrLf, width, keys, values, cells, i);
    PrefixedSlice(cells, i, k, [f.delim]);
    AppendAssoc([f.delim] + cells[i], Prefixed(cells[i + 1..k], [f.delim]), LineTail(f, isCrLf, k, keys));
  }

  /** The error `writeLine` reports from column `i` on: the first column beyond the header, if any. */
  lemma {:induction false} LineFromError(f: Format, isCrLf: bool, width: int, keys: seq<ColumnSpec>,
                                         values: seq<string>, i: nat)
    requires Resolved(keys)
    requires i <= FirstOut(keys, width)
    ensures LineFrom(f, isCrLf, width, keys, values, i).1
         == (if FirstOut(keys, width) < |keys| then Some(OutOfBounds(keys[FirstOut(keys, width)].idx)) else None)
    decreases |keys| - i
  {
    if i < FirstOut(keys, width) {
      LineFromError(f, isCrLf, width, keys, values, i + 1);
    }
  }

  /** One column of `writeLine` within the header. */
  lemma LineFromStep(f: Format, isCrLf: bool, width: int, keys: seq<ColumnSpec>,
                     values: seq<string>, cells: seq<string>, i: nat)
    requires Resolved(keys) && cells == Cells(f, keys, values)
    requires 1 <= i < FirstOut(keys, width)
    ensures LineFrom(f, isCrLf, width, keys, values, i).0
         == [f.delim] + cells[i] + LineFrom(f, isCrLf, width, keys, values, i + 1).0
    ensures LineFrom(f, isCrLf, width, keys, values, i).1 == LineFrom(f, isCrLf, width, keys, values, i + 1).1
  {
  }

  /** At the first column beyond the header (or the end), `writeLine` only ends the line. */
  lemma LineFromAtOut(f: Format, isCrLf: bool, width: int, keys: seq<ColumnSpec>, values: seq<string>, i: nat)
    requires Resolved(keys) && 1 <= i == FirstOut(keys, width)
    ensures LineFrom(f, isCrLf, width, keys, values, i).0 == LineTail(f, isCrLf, i, keys)
    ensures LineFrom(f, isCrLf, width, keys, values, i).1
         == (if i < |keys| then Some(OutOfBounds(keys[i].idx)) else None)
  {
    assert Prefixed([], [f.delim]) == [];
  }

  /** The first column of `writeLine`, when it lies within the header. */
  lemma LineOutFirst(f: Format, isCrLf: bool, width: int, keys: seq<ColumnSpec>, values: seq<string>)
    requires Resolved(keys) && FirstOut(keys, width) > 0
    ensures LineOut(f, isCrLf, width, keys, values).0
         == Cells(f, keys, values)[0] + LineFrom(f, isCrLf, width, keys, values, 1).0
  {
  }

  /** The text `writeLine` writes: the cells joined by the delimiter, up to the first column beyond the header. */
  lemma LineOutText(f: Format, isCrLf: bool, width: int, keys: seq<ColumnSpec>, values: seq<string>)
    requires Resolved(keys)
    ensures var k := FirstOut(keys, width);
      LineOut(f, isCrLf, width, keys, values).0
        == Join(Cells(f, keys, values)[..k], [f.delim]) + (if 0 < k < |keys| then [f.delim] else []) + Terminator(isCrLf)
  {
    if FirstOut(keys, width) > 0 {
      LineOutTextWithin(f, isCrLf, width, keys, values);
    } else {
      LineOutTextNone(f, isCrLf, width, keys, values);
    }
  }

  /** `LineOutText` when the first column lies within the header. */
  lemma LineOutTextWithin(f: Format, isCrLf: bool, width: int, keys: seq<ColumnSpec>, values: seq<string>)
    requires Resolved(keys) && FirstOut(keys, width) > 0
    ensures var k := FirstOut(keys, width);
      LineOut(f, isCrLf, width, keys, values).0
        == Join(Cells(f, keys, values)[..k], [f.delim]) + (if 0 < k < |keys| then [f.delim] else []) + Terminator(isCrLf)
  {
    var k := FirstOut(keys, width);
    var cells := Cells(f, keys, values);
    LineOutFirst(f, isCrLf, width, keys, values);
    LineFromPrefixed(f, isCrLf, width, keys, values, cells, 1);
    JoinTake(cells, k, [f.delim]);
    AppendAssoc4(cells[0], Prefixed(cells[1..k], [f.delim]), if k < |keys| then [f.delim] else [], Terminator(isCrLf));
  }

  /** `LineOutText` when the first column already lies beyond the header. */
  lemma LineOutTextNone(f: Format, isCrLf: bool, width: int, keys: seq<ColumnSpec>, values: seq<string>)
    requires Resolved(keys) && FirstOut(keys, width) == 0
    ensures LineOut(f, isCrLf, width, keys, values).0
         == Join(Cells(f, keys, values)[..0], [f.delim]) + [] + Terminator(isCrLf)
  {
    var cells := Cells(f, keys, values);
    assert cells[..0] == [];
    assert [] + [] + Terminator(isCrLf) == Terminator(isCrLf);
  }

  /** `a + (b + (c + d))` regrouped. */
  lemma AppendAssoc4(a: string, b: string, c: string, d: string)
    ensures a + (b + (c + d)) == (a + b) + c + d
  {
  }

  /**
   * `writeLine` writes the cells of the columns joined by the delimiter and ends the line; when a
   * column lies beyond the header it stops there, still ending the line, and reports that column.
   */
  lemma LineOutMeaning(f: Format, isCrLf: bool, width: int, keys: seq<ColumnSpec>, values: seq<string>)
    requires Resolved(keys)
    ensures var k := FirstOut(keys, width);
      LineOut(f, isCrLf, width, keys, values)
        == (Join(Cells(f, keys, values)[..k], [f.delim]) + (if 0 < k < |keys| then [f.delim] else []) + Terminator(isCrLf),
            if k < |keys| then Some(OutOfBounds(keys[k].idx)) else None)
  {
    LineOutText(f, isCrLf, width, keys, values);
    LineFromError(f, isCrLf, width, keys, values, 0);
  }

  /** Each value quoted. */
  function QuoteAll(f: Format, vs: seq<string>): (r: seq<string>)
    ensures |r| == |vs| && forall j :: 0 <= j < |vs| ==> r[j] == CsvQuote(f, vs[j])
  {
    seq(|vs|, j requires 0 <= j < |vs| => CsvQuote(f, vs[j]))
  }

  /** A format that can quote: a quote rune distinct from the delimiter, neither a line break nor U+FFFD. */
  predicate Quotable(f: Format)
  {
    f.quote != '\0' && f.quote != f.delim && f.quote !in "\r\n\U{FFFD}" && f.delim !in "\r\n\U{FFFD}"
  }

  /** The first quoted value of a joined line and what follows it. */
  lemma JoinedHead(f: Format, vs: seq<string>, term: string, after: string)
    requires |vs| >= 2 && after == Join(QuoteAll(f, vs[1..]), [f.delim]) + term
    ensures Join(QuoteAll(f, vs), [f.delim]) + term == CsvQuote(f, vs[0]) + ([f.delim] + after)
  {
    assert QuoteAll(f, vs)[1..] == QuoteAll(f, vs[1..]);
  }

  /** Outside quotes, `splitLine` ends the value at a delimiter. */
  lemma SplitDelim(f: Format, after: string, fields: seq<string>, sb: string)
    requires Quotable(f)
    ensures SplitFrom(f, [f.delim] + after, fields, sb, false) == SplitFrom(f, after, fields + [sb], "", false)
  {
    assert ([f.delim] + after)[1..] == after;
  }

  /** A first cell read back, then the delimiter. */
  lemma SplitCellDelim(f: Format, v: string, after: string, fields: seq<string>)
    requires '\U{FFFD}' !in v && Quotable(f)
    ensures SplitFrom(f, CsvQuote(f, v) + ([f.delim] + after), fields, [], false)
         == SplitFrom(f, after, fields + [v], [], false)
  {
    SplitCell(f, v, [f.delim] + after, fields, []);
    assert [] + v == v;
    SplitDelim(f, after, fields, v);
  }

  /** A line made of the first value's cell, a delimiter and a rest that reads back as the other values. */
  lemma SplitChain(f: Format, line: string, vs: seq<string>, after: string, fields: seq<string>)
    requires |vs| >= 1 && '\U{FFFD}' !in vs[0] && Quotable(f)
    requires line == CsvQuote(f, vs[0]) + ([f.delim] + after)
    requires SplitFrom(f, after, fields + [vs[0]], [], false) == fields + [vs[0]] + vs[1..]
    ensures SplitFrom(f, line, fields, [], false) == fields + vs
  {
    SplitCellDelim(f, vs[0], after, fields);
    assert vs == [vs[0]] + vs[1..];
  }

  /** One step of `SplitJoined`: the first value, then the rest of the line. */
  lemma SplitJoinedStep(f: Format, vs: seq<string>, term: string, fields: seq<string>)
    requires |vs| >= 2 && '\U{FFFD}' !in vs[0] && Quotable(f)
    requires SplitFrom(f, Join(QuoteAll(f, vs[1..]), [f.delim]) + term, fields + [vs[0]], [], false)
          == fields + [vs[0]] + vs[1..]
    ensures SplitFrom(f, Join(QuoteAll(f, vs), [f.delim]) + term, fields, [], false) == fields + vs
  {
    var after := Join(QuoteAll(f, vs[1..]), [f.delim]) + term;
    JoinedHead(f, vs, term, after);
    SplitChain(f, Join(QuoteAll(f, vs), [f.delim]) + term, vs, after, fields);
  }

  /** `splitLine` reads quoted values joined by the delimiter and ended by a line break back as the values. */
  lemma {:induction false} SplitJoined(f: Format, vs: seq<string>, isCrLf: bool, fields: seq<string>)
    requires |vs| >= 1 && vs[|vs| - 1] != []
    requires forall j :: 0 <= j < |vs| ==> '\U{FFFD}' !in vs[j]
    requires Quotable(f)
    ensures SplitFrom(f, Join(QuoteAll(f, vs), [f.delim]) + Terminator(isCrLf), fields, "", false) == fields + vs
    decreases |vs|
  {
    if |vs| == 1 {
      SplitOne(f, vs[0], isCrLf, fields);
      assert Join(QuoteAll(f, vs), [f.delim]) == CsvQuote(f, vs[0]);
      assert vs == [vs[0]];
    } else {
      assert forall j :: 0 <= j < |vs[1..]| ==> vs[1..][j] == vs[j + 1];
      SplitJoined(f, vs[1..], isCrLf, fields + [vs[0]]);
      SplitJoinedStep(f, vs, Terminator(isCrLf), fields);
    }
  }

  /** The last value of a line, followed by the line end. */
  lemma SplitOne(f: Format, v: string, isCrLf: bool, fields: seq<string>)
    requires v != [] && '\U{FFFD}' !in v && Quotable(f)
    ensures SplitFrom(f, CsvQuote(f, v) + Terminator(isCrLf), fields, "", false) == fields + [v]
  {
    var term := Terminator(isCrLf);
    SplitCell(f, v, term, fields, "");
    assert "" + v == v;
    if isCrLf {
      assert term[1..] == "\n";
    }
  }

  /**
   * Round trip of a whole written CSV line: when every column is within the header, reading the
   * line back with `splitLine` gives the selected values, provided the last one is not empty (an
   * empty last value is never read as a value).
   */
  lemma WrittenLineReadsBack(f: Format, isCrLf: bool, width: int, keys: seq<ColumnSpec>, values: seq<string>)
    requires Resolved(keys) && FirstOut(keys, width) == |keys|
    requires |keys| >= 1 && Selected(keys, values)[|keys| - 1] != []
    requires forall j :: 0 <= j < |values| ==> '\U{FFFD}' !in values[j]
    requires Quotable(f)
    ensures LineOut(f, isCrLf, width, keys, values).1 == None
    ensures SplitLine(f, LineOut(f, isCrLf, width, keys, values).0) == Selected(keys, values)
  {
    var vs := Selected(keys, values);
    LineOutQuoted(f, isCrLf, width, keys, values);
    SelectedClean(keys, values);
    SplitJoined(f, vs, isCrLf, []);
    EmptyPrefix(vs);
  }

  /** With quoting on and every column within the header, `writeLine` writes the quoted values joined. */
  lemma LineOutQuoted(f: Format, isCrLf: bool, width: int, keys: seq<ColumnSpec>, values: seq<string>)
    requires Resolved(keys) && FirstOut(keys, width) == |keys| && f.quote != '\0'
    ensures LineOut(f, isCrLf, width, keys, values)
         == (Join(QuoteAll(f, Selected(keys, values)), [f.delim]) + Terminator(isCrLf), None)
  {
    LineOutMeaning(f, isCrLf, width, keys, values);
    CellsQuoted(f, keys, values);
    AppendNothing(Join(QuoteAll(f, Selected(keys, values)), [f.delim]));
  }

  /** Nothing appended. */
  lemma AppendNothing(s: string)
    ensures s + [] == s
  {
  }

  /** With quoting on, the cells of the columns are the selected values quoted. */
  lemma CellsQuoted(f: Format, keys: seq<ColumnSpec>, values: seq<string>)
    requires Resolved(keys) && f.quote != '\0'
    ensures Cells(f, keys, values)[..|keys|] == QuoteAll(f, Selected(keys, values))
  {
    assert CsvQuote(f, "") == "";
  }

  /** Values free of U+FFFD select values free of it. */
  lemma SelectedClean(keys: seq<ColumnSpec>, values: seq<string>)
    requires Resolved(keys)
    requires forall j :: 0 <= j < |values| ==> '\U{FFFD}' !in values[j]
    ensures forall j :: 0 <= j < |keys| ==> '\U{FFFD}' !in Selected(keys, values)[j]
  {
  }

  /** No fields before the values. */
  lemma EmptyPrefix(vs: seq<string>)
    ensures [] + vs == vs
  {
  }

  // ---------------------------------------------------------------------------------------------
  // writeLine and writeHeader as loops

  /** The loop of `writeLine` (and of `writeHeader`, with the header's names as values). */
  method WriteCells(f: Format, isCrLf: bool, width: int, keys: seq<ColumnSpec>, values: seq<string>)
    returns (s: string, err: Option<string>)
    requires Resolved(keys)
    ensures (s, err) == LineOut(f, isCrLf, width, keys, values)
  {
    s := [];
    var i := 0;
    LineFromStart(f, isCrLf, width, keys, values);
    while i < |keys|
      invariant i <= |keys|
      invariant LineOut(f, isCrLf, width, keys, values).0 == s + LineFrom(f, isCrLf, width, keys, values, i).0
      invariant LineOut(f, isCrLf, width, keys, values).1 == LineFrom(f, isCrLf, width, keys, values, i).1
    {
      var pre: string := if i > 0 then [f.delim] else [];
      if keys[i].idx >= width {
        LineFromStop(f, isCrLf, width, keys, values, s, i);
        return s + pre + Terminator(isCrLf), Some(OutOfBounds(keys[i].idx));
      }
      LineFromGo(f, isCrLf, width, keys, values, s, i);
      var cell := if keys[i].idx < |values| then CellText(f, values[keys[i].idx]) else "";
      s := s + pre + cell;
      i := i + 1;
    }
    s := s + Terminator(isCrLf);
    err := None;
  }

  /** The loop of `WriteCells` starts with nothing written. */
  lemma LineFromStart(f: Format, isCrLf: bool, width: int, keys: seq<ColumnSpec>, values: seq<string>)
    requires Resolved(keys)
    ensures LineOut(f, isCrLf, width, keys, values).0 == [] + LineFrom(f, isCrLf, width, keys, values, 0).0
  {
  }

  /** The column of the loop of `WriteCells` that is past the record's width: the line stops there. */
  lemma LineFromStop(f: Format, isCrLf: bool, width: int, keys: seq<ColumnSpec>, values: seq<string>, s: string, i: nat)
    requires Resolved(keys) && i < |keys| && keys[i].idx >= width
    ensures var pre: string := if i > 0 then [f.delim] else [];
      var here := LineFrom(f, isCrLf, width, keys, values, i);
      s + here.0 == s + pre + Terminator(isCrLf) && here.1 == Some(OutOfBounds(keys[i].idx))
  {
    var pre: string := if i > 0 then [f.delim] else [];
    AppendAssoc(s, pre, Terminator(isCrLf));
  }

  /** A column of the loop of `WriteCells` within the record's width: its cell, then the rest. */
  lemma LineFromGo(f: Format, isCrLf: bool, width: int, keys: seq<ColumnSpec>, values: seq<string>, s: string, i: nat)
    requires Resolved(keys) && i < |keys| && keys[i].idx < width
    ensures var pre: string := if i > 0 then [f.delim] else [];
      var here := LineFrom(f, isCrLf, width, keys, values, i);
      var rest := LineFrom(f, isCrLf, width, keys, values, i + 1);
      s + here.0 == (s + pre + CellAt(f, keys[i], values)) + rest.0 && here.1 == rest.1
  {
    var pre: string := if i > 0 then [f.delim] else [];
    AppendAssoc3(s, pre, CellAt(f, keys[i], values), LineFrom(f, isCrLf, width, keys, values, i + 1).0);
  }

  /** `s + (a + b)` regrouped. */
  lemma AppendAssoc(s: string, a: string, b: string)
    ensures s + (a + b) == s + a + b
  {
  }

  /** `s + (a + b + c)` regrouped. */
  lemma AppendAssoc3(s: string, a: string, b: string, c: string)
    ensures s + (a + b + c) == (s + a + b) + c
  {
  }

  // ---------------------------------------------------------------------------------------------
  // populateColIndex and WriteFile

  /** Every column is an index column or a named column still unresolved (index -1). */
  predicate Selectable(keys: seq<ColumnSpec>)
  {
    forall j :: 0 <= j < |keys| ==> keys[j].idx >= -1
  }

  /** A successful resolution of selectable columns resolves every one of them. */
  lemma ResolveSelectable(keys: seq<ColumnSpec>, header: seq<string>)
    requires Selectable(keys)
    ensures Selectable(ResolveSpecs(keys, header).0)
    ensures ResolveSpecs(keys, header).1.None? ==> Resolved(ResolveSpecs(keys, header).0)
  {
    ResolveSpecsMeaning(keys, header);
  }

  /** The file's header names as the exporter sees them (no header yet reads as none). */
  function HeaderNames(p: ParserState): seq<string>
  {
    if p.header.Some? then p.header.value else []
  }

  /** `%v` of a boolean. */
  function BoolString(b: bool): string
  {
    if b then "true" else "false"
  }

  /** The error of `populateColIndex`: the missing name, the header in `%v` form and the header-comment mode. */
  function MissingColumn(name: string, header: seq<string>, headerComment: bool): string
  {
    "Missing column: " + name + "\n\nHave:[" + Join(header, " ") + "]\nHeaderComment: " + BoolString(headerComment)
  }

  /** What a run of `WriteFile` produces: the text written, the error, the columns and the file's state. */
  datatype Export = Export(out: string, err: Option<string>, keys: seq<ColumnSpec>, after: ParserState)

  /** The same run with `s` written before it. */
  function Prepend(s: string, e: Export): Export
  {
    e.(out := s + e.out)
  }

  /** What one data record makes: the text written, the error, and the columns afterwards. */
  datatype DataOut = DataOut(out: string, err: Option<string>, keys: seq<ColumnSpec>)

  /**
   * The data-record step of `WriteFile`, `q` being the state after the read: before the first data
   * record is written the columns are resolved against the header, whose line follows (unless the
   * file has none); then the record's line.
   */
  function DataStep(f: Format, m: Mode, isCrLf: bool, q: ParserState, keys: seq<ColumnSpec>, wrote: bool,
                    values: seq<string>): (r: DataOut)
    requires Selectable(keys) && (wrote ==> Resolved(keys))
    ensures Selectable(r.keys) && (r.err.None? ==> Resolved(r.keys))
    ensures wrote ==> r.keys == keys
  {
    var header := HeaderNames(q);
    var res := if wrote then (keys, None) else ResolveSpecs(keys, header);
    ResolveSelectable(keys, header);
    if res.1.Some? then DataOut([], Some(MissingColumn(res.1.value, header, m.headerComment)), res.0)
    else
      var hd: (string, Option<string>) := if wrote || m.noHeader then ([], None) else HeaderOut(f, isCrLf, header, res.0);
      if hd.1.Some? then DataOut(hd.0, hd.1, res.0)
      else
        var ln := LineOut(f, isCrLf, |header|, res.0, values);
        DataOut(hd.0 + ln.0, ln.1, res.0)
  }

  /**
   * `WriteFile` from parser state `p` with columns `keys`, `wrote` telling whether the header step
   * is done: comments pass through when `show` is set; data records go through `DataStep`; the
   * first error stops the run, and the end of the file ends it without error.
   */
  function ExportFrom(f: Format, m: Mode, isCrLf: bool, show: bool, p: ParserState, keys: seq<ColumnSpec>, wrote: bool)
    : Export
    requires Selectable(keys) && (wrote ==> Resolved(keys))
    decreases |p.pending|
  {
    var n := NextRecord(f, m, p);
    var q := n.1;
    if n.0.EndOfFile? then Export([], None, keys, q)
    else if n.0.rec.values.None? then
      Prepend(if show then n.0.rec.rawString else [], ExportFrom(f, m, isCrLf, show, q, keys, wrote))
    else
      var d := DataStep(f, m, isCrLf, q, keys, wrote, n.0.rec.values.value);
      if d.err.Some? then Export(d.out, d.err, d.keys, q)
      else Prepend(d.out, ExportFrom(f, m, isCrLf, show, q, d.keys, true))
  }

  /** `WriteFile`'s run, at the end of the file. */
  lemma ExportAtEnd(f: Format, m: Mode, isCrLf: bool, show: bool, p: ParserState, keys: seq<ColumnSpec>, wrote: bool,
                    out: string, q: ParserState)
    requires Selectable(keys) && (wrote ==> Resolved(keys))
    requires NextRecord(f, m, p) == (EndOfFile, q)
    ensures Prepend(out, ExportFrom(f, m, isCrLf, show, p, keys, wrote)) == Export(out, None, keys, q)
  {
    AppendNothing(out);
  }

  /** `WriteFile`'s run, at a comment record. */
  lemma ExportAtComment(f: Format, m: Mode, isCrLf: bool, show: bool, p: ParserState, keys: seq<ColumnSpec>, wrote: bool,
                        out: string, rec: TextRecord, q: ParserState)
    requires Selectable(keys) && (wrote ==> Resolved(keys))
    requires NextRecord(f, m, p) == (Record(rec), q) && rec.values.None?
    ensures Prepend(out, ExportFrom(f, m, isCrLf, show, p, keys, wrote))
         == Prepend(out + if show then rec.rawString else [], ExportFrom(f, m, isCrLf, show, q, keys, wrote))
  {
    PrependPrepend(out, if show then rec.rawString else [], ExportFrom(f, m, isCrLf, show, q, keys, wrote));
  }

  /** `WriteFile`'s run, at a data record that is written without error. */
  lemma ExportAtData(f: Format, m: Mode, isCrLf: bool, show: bool, p: ParserState, keys: seq<ColumnSpec>, wrote: bool,
                     out: string, rec: TextRecord, q: ParserState, d: DataOut)
    requires Selectable(keys) && (wrote ==> Resolved(keys))
    requires NextRecord(f, m, p) == (Record(rec), q) && rec.values.Some?
    requires d == DataStep(f, m, isCrLf, q, keys, wrote, rec.values.value) && d.err.None?
    ensures Prepend(out, ExportFrom(f, m, isCrLf, show, p, keys, wrote))
         == Prepend(out + d.out, ExportFrom(f, m, isCrLf, show, q, d.keys, true))
  {
    PrependPrepend(out, d.out, ExportFrom(f, m, isCrLf, show, q, d.keys, true));
  }

  /** `WriteFile`'s run, at a data record whose step fails. */
  lemma ExportAtError(f: Format, m: Mode, isCrLf: bool, show: bool, p: ParserState, keys: seq<ColumnSpec>, wrote: bool,
                      out: string, rec: TextRecord, q: ParserState, d: DataOut)
    requires Selectable(keys) && (wrote ==> Resolved(keys))
    requires NextRecord(f, m, p) == (Record(rec), q) && rec.values.Some?
    requires d == DataStep(f, m, isCrLf, q, keys, wrote, rec.values.value) && d.err.Some?
    ensures Prepend(out, ExportFrom(f, m, isCrLf, show, p, keys, wrote)) == Export(out + d.out, d.err, d.keys, q)
  {
  }

  /** A run with nothing written before it is itself. */
  lemma PrependEmpty(e: Export)
    ensures Prepend([], e) == e
  {
    assert [] + e.out == e.out;
  }

  /** Writing `out` and then `s` first is writing `out + s` first. */
  lemma PrependPrepend(out: string, s: string, e: Export)
    ensures Prepend(out, Prepend(s, e)) == Prepend(out + s, e)
  {
    assert out + (s + e.out) == (out + s) + e.out;
  }

  /**
   * A run that completes reads the whole file; once the header step is done the columns are never
   * resolved again.
   */
  lemma {:induction false} ExportReadsAll(f: Format, m: Mode, isCrLf: bool, show: bool, p: ParserState,
                                          keys: seq<ColumnSpec>, wrote: bool)
    requires Selectable(keys) && (wrote ==> Resolved(keys))
    ensures var e := ExportFrom(f, m, isCrLf, show, p, keys, wrote);
      (e.err.None? ==> e.after.pending == []) && (wrote ==> e.keys == keys)
    decreases |p.pending|
  {
    var n := NextRecord(f, m, p);
    if n.0.Record? {
      if n.0.rec.values.None? {
        ExportReadsAll(f, m, isCrLf, show, n.1, keys, wrote);
      } else {
        var d := DataStep(f, m, isCrLf, n.1, keys, wrote, n.0.rec.values.value);
        if d.err.None? {
          ExportReadsAll(f, m, isCrLf, show, n.1, d.keys, true);
        }
      }
    }
  }

  /** The file holds no data record from `p` on: only comment lines (and blank ones) are left. */
  predicate NoData(f: Format, m: Mode, p: ParserState)
    decreases |p.pending|
  {
    var n := NextRecord(f, m, p);
    n.0.EndOfFile? || (n.0.rec.values.None? && NoData(f, m, n.1))
  }

  /**
   * A file without data records exports without error, leaves the columns unresolved and writes
   * no header: nothing at all when comments are not shown.
   */
  lemma {:induction false} ExportNoData(f: Format, m: Mode, isCrLf: bool, show: bool, p: ParserState,
                                        keys: seq<ColumnSpec>, wrote: bool)
    requires Selectable(keys) && (wrote ==> Resolved(keys)) && NoData(f, m, p)
    ensures var e := ExportFrom(f, m, isCrLf, show, p, keys, wrote);
      e.err.None? && e.keys == keys && (!show ==> e.out == [])
    decreases |p.pending|
  {
    var n := NextRecord(f, m, p);
    if n.0.Record? {
      ExportNoData(f, m, isCrLf, show, n.1, keys, wrote);
    }
  }

  /**
   * At the first data record the columns are resolved against the header just read and, for a
   * file with a header, the header line is written first; when it is written without error the
   * record's line follows it. A file without a header starts with the record's line.
   */
  lemma ExportStartsWithHeader(f: Format, m: Mode, isCrLf: bool, show: bool, p: ParserState, keys: seq<ColumnSpec>)
    requires Selectable(keys)
    requires NextRecord(f, m, p).0.Record? && NextRecord(f, m, p).0.rec.values.Some?
    requires ResolveSpecs(keys, HeaderNames(NextRecord(f, m, p).1)).1.None?
    ensures var n := NextRecord(f, m, p);
      var header := HeaderNames(n.1);
      var resolved := ResolveSpecs(keys, header).0;
      var e := ExportFrom(f, m, isCrLf, show, p, keys, false);
      Resolved(resolved) && e.keys == resolved
      && var hd := if m.noHeader then ([], None) else HeaderOut(f, isCrLf, header, resolved);
      var first := hd.0 + LineOut(f, isCrLf, |header|, resolved, n.0.rec.values.value).0;
      |hd.0| <= |e.out| && e.out[..|hd.0|] == hd.0
      && (hd.1.None? ==> |first| <= |e.out| && e.out[..|first|] == first)
  {
    var n := NextRecord(f, m, p);
    var rec, q := n.0.rec, n.1;
    var header := HeaderNames(q);
    ResolveSelectable(keys, header);
    var resolved := ResolveSpecs(keys, header).0;
    var hd := if m.noHeader then ([], None) else HeaderOut(f, isCrLf, header, resolved);
    var line := LineOut(f, isCrLf, |header|, resolved, rec.values.value).0;
    var d := DataStep(f, m, isCrLf, q, keys, false, rec.values.value);
    var e := ExportFrom(f, m, isCrLf, show, p, keys, false);
    DataStepFirst(f, m, isCrLf, q, keys, rec.values.value);
    ExportFirst(f, m, isCrLf, show, p, keys, rec, q, d);
    if d.err.None? {
      var rest := ExportFrom(f, m, isCrLf, show, q, d.keys, true);
      ExportReadsAll(f, m, isCrLf, show, q, d.keys, true);
      OutStartsWith(e.out, d.out, d.err, hd.0, hd.1, line, rest.out);
    } else {
      OutStartsWith(e.out, d.out, d.err, hd.0, hd.1, line, []);
    }
  }

  /** The text of a run that writes `dout` first begins with the header line, then the first line. */
  lemma OutStartsWith(out: string, dout: string, derr: Option<string>, h: string, herr: Option<string>, line: string,
                      rest: string)
    requires herr.None? ==> dout == h + line
    requires herr.Some? ==> dout == h && derr.Some?
    requires out == if derr.Some? then dout else dout + rest
    ensures |h| <= |out| && out[..|h|] == h
    ensures herr.None? ==> |h + line| <= |out| && out[..|h + line|] == h + line
  {
    if derr.None? {
      assert out == h + line + rest;
    }
  }

  /** The first data record's step: the columns resolved, the header line, then the record's line. */
  lemma DataStepFirst(f: Format, m: Mode, isCrLf: bool, q: ParserState, keys: seq<ColumnSpec>, values: seq<string>)
    requires Selectable(keys) && ResolveSpecs(keys, HeaderNames(q)).1.None?
    ensures Resolved(ResolveSpecs(keys, HeaderNames(q)).0)
    ensures var header := HeaderNames(q);
      var resolved := ResolveSpecs(keys, header).0;
      var hd := if m.noHeader then ([], None) else HeaderOut(f, isCrLf, header, resolved);
      var d := DataStep(f, m, isCrLf, q, keys, false, values);
      d.keys == resolved
      && (hd.1.None? ==> d.out == hd.0 + LineOut(f, isCrLf, |header|, resolved, values).0)
      && (hd.1.Some? ==> d.out == hd.0 && d.err.Some?)
  {
    ResolveSelectable(keys, HeaderNames(q));
  }

  /** The run at its first data record, before anything is written. */
  lemma ExportFirst(f: Format, m: Mode, isCrLf: bool, show: bool, p: ParserState, keys: seq<ColumnSpec>,
                    rec: TextRecord, q: ParserState, d: DataOut)
    requires Selectable(keys)
    requires NextRecord(f, m, p) == (Record(rec), q) && rec.values.Some?
    requires d == DataStep(f, m, isCrLf, q, keys, false, rec.values.value)
    ensures var e := ExportFrom(f, m, isCrLf, show, p, keys, false);
      if d.err.Some? then e == Export(d.out, d.err, d.keys, q)
      else e == Prepend(d.out, ExportFrom(f, m, isCrLf, show, q, d.keys, true))
  {
  }

  /**
   * Exporting the column named `b` of the tab file `a<TAB>b` / `1<TAB>2` writes the header `b` and
   * the line `2`, the column resolving to position 1.
   */
  lemma ExportExample()
    ensures var e := ExportFrom(TabFormat, Mode(false, false), false, false, Initial("a\tb\n1\t2\n"),
                                [ColumnSpec("b", -1, false, false)], false);
      e.out == "b\n2\n" && e.err == None && e.keys == [ColumnSpec("b", 1, false, false)]
  {
    var f, m := TabFormat, Mode(false, false);
    var keys := [ColumnSpec("b", -1, false, false)];
    var q := ParserState("", 2, 1, Some(["a", "b"]), "", "a\tb\n");
    TextFileProps.DefaultHeaderExample();
    ExampleResolve();
    var resolved := [ColumnSpec("b", 1, false, false)];
    ExampleLines();
    assert DataStep(f, m, false, q, keys, false, ["1", "2"]) == DataOut("b\n2\n", None, resolved);
    assert NextRecord(f, m, q).0 == EndOfFile;
  }

  /** The column `b` resolves to position 1 of the header `a`, `b`. */
  lemma ExampleResolve()
    ensures ResolveSpecs([ColumnSpec("b", -1, false, false)], ["a", "b"]) == ([ColumnSpec("b", 1, false, false)], None)
  {
    var keys := [ColumnSpec("b", -1, false, false)];
    assert FindIndex(["a", "b"], "b") == 1 by {
      assert ["a", "b"][0] != "b" && ["a", "b"][1..] == ["b"];
      assert FindIndex(["b"], "b") == 0;
    }
    assert keys[1..] == [];
    assert ResolveSpecs(keys[1..], ["a", "b"]) == ([], None);
    var k := keys[0].(idx := 1);
    assert ResolveSpecs(keys, ["a", "b"]) == ([k] + [], None);
    assert [k] + [] == [ColumnSpec("b", 1, false, false)];
  }

  /** The header line and the data line of the example. */
  lemma ExampleLines()
    ensures HeaderOut(TabFormat, false, ["a", "b"], [ColumnSpec("b", 1, false, false)]) == ("b\n", None)
    ensures LineOut(TabFormat, false, 2, [ColumnSpec("b", 1, false, false)], ["1", "2"]) == ("2\n", None)
  {
    var keys := [ColumnSpec("b", 1, false, false)];
    assert CellAt(TabFormat, keys[0], ["a", "b"]) == "b";
    assert CellAt(TabFormat, keys[0], ["1", "2"]) == "2";
    assert LineFrom(TabFormat, false, 2, keys, ["a", "b"], 1) == ("\n", None);
    assert LineFrom(TabFormat, false, 2, keys, ["1", "2"], 1) == ("\n", None);
    assert [] + "b" + "\n" == "b\n";
    assert [] + "2" + "\n" == "2\n";
  }

  class TextExporter {
    const txt: DelimitedTextFile
    const cols: seq<TextColumn>
    var showComments: bool

    /** `NewTextExporter`: comments are not shown. */
    constructor NewTextExporter(f: DelimitedTextFile, cols: seq<TextColumn>)
      ensures txt == f && this.cols == cols && !showComments
    {
      txt := f;
      this.cols := cols;
      showComments := false;
    }

    /** `WithShowComments`: sets the flag and returns the exporter. */
    method WithShowComments(b: bool) returns (t: TextExporter)
      modifies this
      ensures t == this && showComments == b
    {
      showComments := b;
      t := this;
    }

    /** `populateColIndex`: resolves the columns against the current header, with the full error text. */
    method PopulateColIndex() returns (err: Option<string>)
      requires Distinct(cols)
      modifies set c | c in cols
      ensures var r := ResolveSpecs(old(Specs(cols)), HeaderNames(txt.State()));
        Specs(cols) == r.0
        && err == (if r.1.Some? then Some(MissingColumn(r.1.value, HeaderNames(txt.State()), txt.headerComment)) else None)
    {
      var header := if txt.Header.Some? then txt.Header.value else [];
      var e := ResolveColumns(cols, header);
      if e.Some? {
        err := Some(MissingColumn(e.value, header, txt.headerComment));
      } else {
        err := None;
      }
    }

    /** `writeHeader`: nothing without a header, else the header's names under the columns. */
    method WriteHeader() returns (s: string, err: Option<string>)
      requires Resolved(Specs(cols))
      ensures (s, err) == if txt.noHeader then ([], None) else HeaderOut(txt.Fmt(), txt.IsCrLf, HeaderNames(txt.State()), Specs(cols))
    {
      if txt.noHeader {
        return [], None;
      }
      var header := if txt.Header.Some? then txt.Header.value else [];
      s, err := WriteCells(txt.Fmt(), txt.IsCrLf, |header|, Specs(cols), header);
    }

    /** `writeLine`: a record's values under the columns, within the current header. */
    method WriteLine(values: seq<string>) returns (s: string, err: Option<string>)
      requires Resolved(Specs(cols))
      ensures (s, err) == LineOut(txt.Fmt(), txt.IsCrLf, |HeaderNames(txt.State())|, Specs(cols), values)
    {
      var header := if txt.Header.Some? then txt.Header.value else [];
      s, err := WriteCells(txt.Fmt(), txt.IsCrLf, |header|, Specs(cols), values);
    }

    /** The data-record block of `WriteFile`'s loop. */
    method WriteRecord(values: seq<string>, wrote: bool) returns (s: string, err: Option<string>)
      requires Distinct(cols) && Selectable(Specs(cols)) && (wrote ==> Resolved(Specs(cols)))
      modifies set c | c in cols
      ensures var d := DataStep(txt.Fmt(), txt.Modes(), txt.IsCrLf, txt.State(), old(Specs(cols)), wrote, values);
        s == d.out && err == d.err && Specs(cols) == d.keys
    {
      s := [];
      if !wrote {
        ResolveSelectable(Specs(cols), HeaderNames(txt.State()));
        err := PopulateColIndex();
        if err.Some? {
          return;
        }
        if !txt.noHeader {
          s, err := WriteHeader();
          if err.Some? {
            return;
          }
        }
      }
      var ln;
      ln, err := WriteLine(values);
      s := s + ln;
    }

    /** `WriteFile`: reads the whole file, writing what `ExportFrom` describes. */
    method WriteFile() returns (out: string, err: Option<string>)
      requires Distinct(cols) && Selectable(Specs(cols))
      modifies txt`next, txt`hasNext, txt`rest, txt`curLineNum, txt`curDataLineNum, txt`Header, txt`lastComment,
               txt`rawHeaderLine, set c | c in cols
      ensures var e := ExportFrom(txt.Fmt(), txt.Modes(), txt.IsCrLf, showComments, old(txt.State()), old(Specs(cols)), false);
        out == e.out && err == e.err && Specs(cols) == e.keys && txt.State() == e.after
    {
      ghost var total := ExportFrom(txt.Fmt(), txt.Modes(), txt.IsCrLf, showComments, txt.State(), Specs(cols), false);
      out := [];
      PrependEmpty(total);
      var wrote := false;
      while true
        invariant Selectable(Specs(cols)) && (wrote ==> Resolved(Specs(cols)))
        invariant total == Prepend(out, ExportFrom(txt.Fmt(), txt.Modes(), txt.IsCrLf, showComments, txt.State(), Specs(cols), wrote))
        decreases |txt.State().pending|
      {
        var done;
        done, out, err, wrote := Step(out, wrote);
        if done {
          return;
        }
      }
    }

    /** One turn of `WriteFile`'s loop: reads a record and writes what it makes, `done` at the end or on an error. */
    method Step(out: string, wrote: bool) returns (done: bool, out': string, err: Option<string>, wrote': bool)
      requires Distinct(cols) && Selectable(Specs(cols)) && (wrote ==> Resolved(Specs(cols)))
      modifies txt`next, txt`hasNext, txt`rest, txt`curLineNum, txt`curDataLineNum, txt`Header, txt`lastComment,
               txt`rawHeaderLine, set c | c in cols
      ensures Selectable(Specs(cols)) && (wrote' ==> Resolved(Specs(cols)))
      ensures var e := Prepend(out, ExportFrom(txt.Fmt(), txt.Modes(), txt.IsCrLf, showComments, old(txt.State()),
                                               old(Specs(cols)), wrote));
        if done then e == Export(out', err, Specs(cols), txt.State())
        else e == Prepend(out', ExportFrom(txt.Fmt(), txt.Modes(), txt.IsCrLf, showComments, txt.State(), Specs(cols), wrote'))
             && |txt.State().pending| < |old(txt.State()).pending|
    {
      ghost var p, keys := txt.State(), Specs(cols);
      var r := txt.ReadLine();
      if r.EndOfFile? {
        ExportAtEnd(txt.Fmt(), txt.Modes(), txt.IsCrLf, showComments, p, keys, wrote, out, txt.State());
        return true, out, None, wrote;
      }
      var rec := r.rec;
      if rec.values.None? {
        ExportAtComment(txt.Fmt(), txt.Modes(), txt.IsCrLf, showComments, p, keys, wrote, out, rec, txt.State());
        return false, out + if showComments then rec.rawString else [], None, wrote;
      }
      var d, e := WriteRecord(rec.values.value, wrote);
      ghost var step := DataOut(d, e, Specs(cols));
      if e.Some? {
        ExportAtError(txt.Fmt(), txt.Modes(), txt.IsCrLf, showComments, p, keys, wrote, out, rec, txt.State(), step);
        return true, out + d, e, wrote;
      }
      ExportAtData(txt.Fmt(), txt.Modes(), txt.IsCrLf, showComments, p, keys, wrote, out, rec, txt.State(), step);
      return false, out + d, None, true;
    }
  }
}
