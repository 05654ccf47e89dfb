# tabl core, modelled in Dafny

This project models the core of `tabl`, a command-line tool for delimited text files (tab-separated,
CSV). It covers:

- **`bufread.BufferedReader`** (`bufread.dfy`, module `BufRead`): a two-buffer reader over a file
  with `ReadByte`, `Read` and `Peek`. Its `left`/`right` buffers are arrays. Its invariant says that
  the bytes consumed, followed by the bytes still unconsumed, are always the file's contents.
- **`textfile.DelimitedTextFile`** (`textfile.dfy`, `textfile_props.dfy`; modules `TextFile` and
  `TextFileProps`): the record reader.
  - `ReadLine` is a method over the file's fields. It is proved equal to the pure function
    `NextRecord` over a `ParserState`.
  - `NextRecord` covers quoting, doubled quotes, dropped `\r`, comment lines and blank lines, the
    three header modes, header widening, and the line and data-line counters.
  - The file also holds `splitLine`, `GetValue`, and the gzip/plain decision that `open` makes.
- **`TextColumn`** (`textcolumn.dfy`, `TextColumns`): column specifications, their setters,
  `String`, and name resolution against a header.
- **`cmd.ParseColumnList` and `MultiColumnVar.Set`** (`columnlist.dfy`, `ColumnList`): parse column
  lists such as `1,"gene name",3-5` and the `:n`/`:r`/`:rn`/`:nr` suffixes.
- **`TextExporter`** (`exporter.dfy`, `Exporter`): column export, with CSV quoting that the reader
  reads back.
- **`CSVExporter`** (`csvtotab.dfy`, `CsvToTab`): CSV-to-tab conversion with escaping of control
  characters.
- **`TextViewer`** (`viewer.dfy`, `Viewer`): the aligned-column viewer. It estimates widths from
  the first 10000 lines, then writes them and streams the rest.
- **`TextSorter`** (`sorter.dfy`, `Sorter`): the external merge sort.
  - `Less` and the strict weak order it forms.
  - Runs spilled from a fixed buffer.
  - The k-way merge of the runs.
  - Temp-file bookkeeping.
- **`support.MaxInt`/`MinInt`** (`support.dfy`, `Support`) and the Go library behaviour the core
  relies on (`stringutil.dfy`, `StringUtil`): UTF-8 rune lengths, `strconv.Atoi`, Go string order,
  `strings.TrimSuffix`/`ReplaceAll`, and `%-*s` padding.

Each consumer's `WriteFile` is a class method with a loop calling `ReadLine`. It is proved equal to
a pure function over the reader's states (`ExportFrom`, `TabFrom`, `View`, `SortFile`). The
properties of the tool are then proved about those functions. Output streams are modelled as the
string written. A Go `error` is an `Option<string>`, and a Go run-time panic is a `panicked` result.

## Model

| member | source | states |
|---|---|---|
| Support.MaxInt | support/support.go:4-12 | returns a member of the arguments that no argument exceeds |
| Support.MinInt | support/support.go:15-23 | returns a member of the arguments that no argument is below |
| Support.MaxOfIsMaximum | support/support.go:4-12 | the maximum is one of the numbers and bounds them all |
| Support.MinOfIsMinimum | support/support.go:15-23 | the minimum is one of the numbers and is below them all |
| Support.ClampWithin | textfile/viewer.go:124-127 | a width clamped by min width and max width lies in [minWidth, maxWidth], and a value already in range is kept |
| StringUtil.RuneLen | textfile/textfile.go:224 | a rune's UTF-8 length is 1 to 4 bytes |
| StringUtil.EncodeRuneLength | textfile/textfile.go:224 | the encoding of a rune has RuneLen bytes, and its lead byte's range identifies that length |
| StringUtil.EncodedLenIsByteLength | textfile/textfile.go:250 | summing RuneLen over a string gives the length of its UTF-8 encoding (the record's ByteSize) |
| StringUtil.EncodedLenAppend | textfile/textfile.go:250 | byte sizes add up over concatenation |
| StringUtil.EncodeAppend | textfile/textfile.go:250 | encoding distributes over concatenation |
| StringUtil.TextIsNotGzip | textfile/textfile.go:415-416 | no UTF-8 text starts with the gzip magic bytes 1F 8B |
| StringUtil.LexLessIrreflexive | textfile/sorter.go:245-247 | Go's string `<` is irreflexive |
| StringUtil.LexLessTrichotomy | textfile/sorter.go:245-247 | of two strings, exactly one is less, or they are equal |
| StringUtil.LexLessTransitive | textfile/sorter.go:245-247 | Go's string `<` is transitive |
| StringUtil.DoubleRune | textfile/exporter.go:168 | replacing each quote by two quotes adds one rune per quote |
| StringUtil.TrimSuffix | textfile/viewer.go:155 | the suffix is removed exactly when the string ends with it, and otherwise the string is unchanged |
| StringUtil.Repeat | textfile/viewer.go:185-187 | writes n copies of the rune |
| StringUtil.PadRight | textfile/viewer.go:170-172 | `%-*s` keeps the text and pads it with spaces up to the width |
| StringUtil.Atoi | cmd/export.go:143 | an accepted number fits in 64 bits |
| StringUtil.NatStringDigits | cmd/export.go:143 | decimal text of a natural number is non-empty, all digits, and denotes it |
| StringUtil.AtoiDecimalString | cmd/export.go:143 | `Atoi` reads back the decimal text of any 64-bit integer |
| StringUtil.AtoiRejects | cmd/export.go:143-146 | the empty string, a lone sign, and text ending in a non-digit are errors |
| BufRead.Source.Read | bufread/buffered.go:134 | an `os.File` read returns a prefix of the remaining bytes, at most the buffer length, and EOF only when nothing is left |
| BufRead.BufferedReader.OpenFileSize | bufread/buffered.go:32-54 | a new reader has no buffers, is not at EOF, and has the whole file unconsumed |
| BufRead.BufferedReader.SwapAndFill | bufread/buffered.go:116-182 | keeps the unconsumed bytes unchanged, reports EOF exactly when none are left, and otherwise leaves an unread byte in `left` |
| BufRead.BufferedReader.Fill | bufread/buffered.go:144-177 | the first fill buffers `left`, then `right` unless EOF was reached, consuming nothing; an empty `left` means EOF |
| BufRead.BufferedReader.Promote | bufread/buffered.go:126-143 | `right` becomes `left` and is refilled, without consuming anything |
| BufRead.BufferedReader.ReadByte | bufread/buffered.go:63-77 | returns the next unconsumed byte and consumes it, or EOF when none is left |
| BufRead.BufferedReader.Read | bufread/buffered.go:80-113 | copies min(len(p), remaining) next bytes into p and consumes them, and leaves the rest of p alone; EOF only when nothing was left |
| BufRead.BufferedReader.CopyOut | bufread/buffered.go:90-112 | the copy loop fills p from the unconsumed bytes until p is full or the file ends |
| BufRead.BufferedReader.Peek | bufread/buffered.go:185-219 | a request larger than the buffer fails and changes nothing; otherwise it copies the next bytes available in `left` and `right` without consuming any, and returns EOF exactly when fewer than len(p) are buffered |
| BufRead.BufferedReader.PeekAhead | bufread/buffered.go:197-218 | the peek loop reads across `left` into `right` and stops at the buffered end |
| BufRead.PeekTwice | bufread/buffered.go:185-219 | two peeks in a row return the same bytes and consume nothing |
| BufRead.PeekThenRead | bufread/buffered.go:185-219 | a read after a peek returns the peeked bytes first |
| TextColumns.SettersIdempotentAndCommute | textfile/text_column.go:43-52 | `AsNumber` and `AsReverse` are idempotent and commute |
| TextColumns.ColumnString | textfile/text_column.go:19-31 | an index column prints as `idx:...`, and a numeric one ends in `,n` |
| TextColumns.IndexStringRoundTrip | textfile/text_column.go:27-30 | the index printed by `String` reads back with `Atoi` |
| TextColumns.FindIndex | textfile/exporter.go:78-83 | finds the first header position holding the name, or -1 exactly when the name is absent |
| TextColumns.ResolveSpecsMeaning | textfile/exporter.go:75-90 | resolution keeps each column's name and flags; it sets each named column to its header position; it fails exactly when some named column is missing, and names that column |
| TextColumns.TextColumn.NewNamedColumn | textfile/text_column.go:35-40 | a named column starts with index -1 and no flags |
| TextColumns.TextColumn.NewIndexColumn | textfile/text_column.go:55-60 | an index column has an empty name and no flags |
| TextColumns.TextColumn.AsNumber | textfile/text_column.go:43-46 | sets only the numeric flag and returns the same column |
| TextColumns.TextColumn.AsReverse | textfile/text_column.go:49-52 | sets only the reverse flag and returns the same column |
| TextColumns.TextColumn.String | textfile/text_column.go:19-31 | prints the column's current specification |
| TextColumns.SpecsPointwise | textfile/exporter.go:76 | the specification list is the columns' specifications in order |
| TextColumns.DistinctPairwise | textfile/exporter.go:76 | the column objects of a list are pairwise distinct |
| TextColumns.ResolveColumns | textfile/exporter.go:75-90 | updates the column objects in place to the resolved specifications and returns the missing-column error |
| ColumnList.SplitColumnList | cmd/export.go:83-129 | the scanning loop yields exactly the items and number flags of the pure scan `ColumnItems` |
| ColumnList.IndexRune | cmd/export.go:141 | finds the first occurrence of a rune, or -1 exactly when it is absent |
| ColumnList.ColumnItemsLengths | cmd/export.go:114-129 | every item gets a number flag |
| ColumnList.UnquotedList | cmd/export.go:90-129 | without quotes, the items are the comma-separated fields, with a trailing empty field dropped, and an item is numeric exactly when it has only digits and `-` |
| ColumnList.QuotedName | cmd/export.go:97-112 | a quoted name is one non-numeric item, whatever it contains; an empty quoted name gives no item |
| ColumnList.ParseColumnList | cmd/export.go:82-184 | returns fresh, distinct columns whose specifications are `ParseSpec`'s, or exactly its error and no columns |
| ColumnList.AppendItem | cmd/export.go:137-170 | one item becomes its index, its range or its name, or the `Atoi` error |
| ColumnList.AppendNumber | cmd/export.go:141-148 | a number n becomes index n-1, or the `Atoi` error |
| ColumnList.AppendSpan | cmd/export.go:149-166 | `a-b` becomes the indexes a-1..b-1, or the first failing `Atoi`'s error |
| ColumnList.ExpandNumberValue | cmd/export.go:141-148 | a plain number's value or error |
| ColumnList.ExpandSpanValue | cmd/export.go:149-166 | a range's value, or the error for its left or else its right end |
| ColumnList.AppendRange | cmd/export.go:164-166 | appends one fresh index column for each j from lo to hi |
| ColumnList.IndexRangeContents | cmd/export.go:164-166 | a range holds hi-lo+1 columns (none when hi < lo), each with index lo-1+k |
| ColumnList.ExpandPrefixError | cmd/export.go:144-162 | the first failing item's error is the error of the whole list |
| ColumnList.ExpandItemErrors | cmd/export.go:149-162 | an empty numeric item, a leading `-`, and two non-adjacent `-` are errors |
| ColumnList.NumberRoundTrip | cmd/export.go:82-184 | the decimal text of n parses to the single index n-1 |
| ColumnList.RangeRoundTrip | cmd/export.go:82-184 | `a-b` parses to indexes a-1 through b-1 |
| ColumnList.NumericSingleItem | cmd/export.go:90-129 | a comma-free numeric text is a single numeric item |
| ColumnList.NoCommaField | cmd/export.go:113-117 | text without a comma is one field |
| ColumnList.SuffixRoundTrip | cmd/multi_var.go:26-50 | a `:n`, `:r`, `:rn` or `:nr` suffix is recognised and split off |
| ColumnList.NoSuffix | cmd/multi_var.go:50-55 | text not ending in `n` or `r` carries no flags |
| ColumnList.ParseFlagged | cmd/multi_var.go:26-55 | parses the text before the suffix and marks every column with the suffix's flags, or returns the parse error |
| ColumnList.MarkColumns | cmd/multi_var.go:31-49 | sets the flags on every column in place |
| ColumnList.MultiColumnVar.constructor | cmd/multi_var.go:10-12 | starts with no values |
| ColumnList.MultiColumnVar.Set | cmd/multi_var.go:20-60 | on error, Values is unchanged; otherwise Values gains, at its end, the fresh columns of the parsed list with the suffix's flags |
| TextFile.ScanRecord | textfile/textfile.go:200-274 | scanning one line consumes input, and reaches the end only with nothing left |
| TextFile.ColNames | textfile/textfile.go:320-325 | `col1..coln`, one name per column |
| TextFile.Grow | textfile/textfile.go:348-357 | widening keeps the header as a prefix and reaches the row's width |
| TextFile.StripLeading | textfile/textfile.go:328-334 | removes a prefix of comment runes and spaces, after which neither comes first |
| TextFile.AfterLine | textfile/textfile.go:276-369 | the handling after a line consumes no more input; at the end of the file it goes on only past a line with fields |
| TextFile.NextRecord | textfile/textfile.go:189-376 | a record consumes input, and EOF is returned only when no input is left |
| TextFile.ReadLineStep | textfile/textfile.go:200-373 | one pass of the outer loop: a skipped line leads to the same next record from a smaller state |
| TextFile.GetValue | textfile/textfile.go:502-509 | returns the row's value under the first matching header name, or the missing-column error exactly when the name is not in the header |
| TextFile.ScanRaw | textfile/textfile.go:215-270 | a record's raw string is exactly the input it consumed |
| TextFile.ScanSize | textfile/textfile.go:224-250 | a record's ByteSize is the UTF-8 length of its raw string |
| TextFile.ScanEnds | textfile/textfile.go:215-270 | a line not at EOF ends in `\n`; a line is a comment exactly when its first rune is the comment rune |
| TextFile.MakeColNames | textfile/textfile.go:322-325 | the naming loop yields `ColNames(n)` |
| TextFile.WidenHeader | textfile/textfile.go:348-357 | the widening loop yields `Grow` |
| TextFile.StripComment | textfile/textfile.go:329-334 | the stripping loop yields `StripLeading` |
| TextFile.SplitLineLoop | textfile/textfile.go:437-499 | the `splitLine` loop yields `SplitLine` |
| TextFile.DelimitedTextFile.NewDelimitedFile | textfile/textfile.go:54-63 | a new reader has the given format and no header yet; the whole text is pending |
| TextFile.DelimitedTextFile.NewTabFile | textfile/textfile.go:66-68 | tab delimiter, no quote, `#` comments, LF |
| TextFile.DelimitedTextFile.NewCSVFile | textfile/textfile.go:71-73 | `,` delimiter, `"` quote, `#` comments, CRLF |
| TextFile.DelimitedTextFile.Clone | textfile/textfile.go:76-86 | a fresh reader with the same delimiter, quote and comment runes, over the new file's text, LF line ends and default modes |
| TextFile.DelimitedTextFile.WithNoHeader | textfile/textfile.go:95-98 | sets the no-header mode and returns the same reader |
| TextFile.DelimitedTextFile.WithHeaderComment | textfile/textfile.go:101-104 | sets the header-comment mode and returns the same reader |
| TextFile.DelimitedTextFile.PopulateNext | textfile/textfile.go:130-186 | moves the next decoded rune into the look-ahead slot, or reports EOF (a literal U+FFFD is an ordinary rune here; see "Left out") |
| TextFile.DelimitedTextFile.NextRune | textfile/textfile.go:106-117 | returns and consumes the next pending rune, or EOF when none is left |
| TextFile.DelimitedTextFile.PeekRune | textfile/textfile.go:119-128 | returns the next pending rune without consuming it |
| TextFile.DelimitedTextFile.ScanLine | textfile/textfile.go:200-274 | the rune loop of `ReadLine` computes `ScanRecord` |
| TextFile.DelimitedTextFile.ReadLine | textfile/textfile.go:189-376 | returns `NextRecord`'s result and leaves the reader in its state |
| TextFile.DelimitedTextFile.AfterScan | textfile/textfile.go:276-369 | the handling after the rune loop, as `AfterLine` |
| TextFile.DelimitedTextFile.CommentLine | textfile/textfile.go:288-302 | a comment record has no values and data line -1; it is remembered as the last comment only before the header |
| TextFile.DelimitedTextFile.DataLine | textfile/textfile.go:303-369 | the first data line becomes the header in default mode; otherwise the line is returned with the next data-line number and the header widened |
| TextFile.DelimitedTextFile.UpdateHeader | textfile/textfile.go:318-357 | sets the header from the mode (generated names or the stripped last comment) and widens it |
| TextFile.DelimitedTextFile.FindHeader | textfile/textfile.go:320-336 | the header a non-default mode chooses |
| TextFile.FirstFillTwo | textfile/textfile.go:408-415 | the first fill buffers two bytes exactly when the file has two |
| TextFile.OpenFile | textfile/textfile.go:405-434 | as written: fails on a file shorter than two bytes, picks gzip on 1F 8B, and otherwise reads plain; nothing is consumed |
| TextFile.OpenFileCorrected | textfile/textfile.go:405-434 | corrected: a short file is plain text |
| TextFileProps.SplitLineMatchesScan | textfile/textfile.go:437-499 | `splitLine` gives the same fields as `ReadLine` on a non-comment line |
| TextFileProps.ReadLineCounters | textfile/textfile.go:276-364 | the line counter never decreases; a record carries the new line number; a data record carries the next data-line number; a comment carries -1 and leaves the data counter alone |
| TextFileProps.GrowColNames | textfile/textfile.go:350-355 | widening generated names gives generated names |
| TextFileProps.ReadLineHeader | textfile/textfile.go:318-357 | once set, the header only grows, keeping its names as a prefix, and the last comment stays fixed; every data row fits within the header |
| TextFileProps.ReadLineNoHeaderNames | textfile/textfile.go:320-355 | in no-header mode the header is always `col1..coln` |
| TextFileProps.ReadLineRaw | textfile/textfile.go:215-270 | a record's raw string is non-empty and is read from the pending text, after any skipped lines |
| TextFileProps.ReadLineText | textfile/textfile.go:224-301 | ByteSize is the raw string's UTF-8 length; a comment starts with the comment rune; a line not at EOF ends in `\n` |
| TextFileProps.DefaultHeaderExample | textfile/textfile.go:337-343 | `a\tb\n1\t2\n` yields the header a, b and the record 1, 2 on line 2 |
| TextFileProps.HeaderCommentExample | textfile/textfile.go:326-336 | in header-comment mode, `#a\tb` is returned as a comment, then supplies the header a, b |
| TextFileProps.TextOpensPlain | textfile/textfile.go:405-434 | text opens as plain (corrected), or fails when shorter than two bytes (as written) |
| TextFileProps.ShortFileLost | textfile/textfile.go:408-413 | the one-byte file `a` holds a record, but `open` as written fails on it |
| Exporter.CsvQuote | textfile/exporter.go:151-171 | a value is quoted exactly when it holds `\r`, `\n`, the quote or the delimiter; quoting wraps it in quotes and doubles each inner quote |
| Exporter.CsvQuoteRoundTrip | textfile/exporter.go:151-171 | the reader splits a quoted value back into that value |
| Exporter.FirstOut | textfile/exporter.go:127-133 | the first selected column outside the header width |
| Exporter.LineOutMeaning | textfile/exporter.go:122-149 | writeLine writes the cells before the first out-of-bounds column, joined by the delimiter, then the line end; it fails with that column's 1-based index |
| Exporter.WrittenLineReadsBack | textfile/exporter.go:122-171 | with a quote rune, reading an exported line gives back the selected values |
| Exporter.LineOutQuoted | textfile/exporter.go:134-139 | with a quote rune, each selected cell is `CsvQuote`d |
| Exporter.QuoteAll | textfile/exporter.go:134-139 | quotes each value |
| Exporter.WriteCells | textfile/exporter.go:122-149 | the writeLine loop computes `LineOut` |
| Exporter.ResolveSelectable | textfile/exporter.go:75-90 | resolution keeps columns selectable; on success every column has an index |
| Exporter.DataStep | textfile/exporter.go:51-67 | the first data row resolves the columns once; later rows keep them |
| Exporter.ExportReadsAll | textfile/exporter.go:37-72 | unless it fails, the exporter reads the file to its end; after the first row the columns stay fixed |
| Exporter.ExportNoData | textfile/exporter.go:37-72 | a file with no data rows resolves nothing, fails with nothing, and writes only comments (when shown) |
| Exporter.ExportStartsWithHeader | textfile/exporter.go:51-67 | when resolution succeeds, output starts with the header line (unless in no-header mode), then the first row |
| Exporter.ExportFirst | textfile/exporter.go:51-67 | the first data row resolves the columns, writes the header and then the row, or stops at the first error |
| Exporter.ExportExample | textfile/exporter.go:32-73 | selecting `b` from `a\tb\n1\t2\n` writes `b\n2\n` |
| Exporter.TextExporter.NewTextExporter | textfile/exporter.go:17-23 | starts with comments hidden |
| Exporter.TextExporter.WithShowComments | textfile/exporter.go:26-29 | sets showComments and returns the same exporter |
| Exporter.TextExporter.PopulateColIndex | textfile/exporter.go:75-90 | resolves the columns in place, or reports the missing column with the header and the header-comment flag |
| Exporter.TextExporter.WriteHeader | textfile/exporter.go:91-120 | writes nothing in no-header mode, and otherwise `HeaderOut`: the selected header names, stopping with an out-of-bounds error at the first column past the header |
| Exporter.TextExporter.WriteLine | textfile/exporter.go:122-149 | writes the selected cells as `LineOut` |
| Exporter.TextExporter.WriteRecord | textfile/exporter.go:51-67 | one data row of the loop, as `DataStep` |
| Exporter.TextExporter.WriteFile | textfile/exporter.go:32-73 | writes exactly `ExportFrom`'s output and error, and leaves the columns and the reader as `ExportFrom` says |
| Exporter.TextExporter.Step | textfile/exporter.go:37-68 | one pass of the loop: the rest of the export from the new state is the rest from the old |
| CsvToTab.LetterRune | textfile/csv_to_tab.go:106-120 | each escape letter stands for exactly one control rune |
| CsvToTab.Quoted | textfile/csv_to_tab.go:99-128 | escaping adds one rune per control rune, and the result has no tab, CR or LF |
| CsvToTab.QuoteTab | textfile/csv_to_tab.go:99-128 | the quoteTab loop computes `Quoted` |
| CsvToTab.UnquoteQuoted | textfile/csv_to_tab.go:99-128 | undoing the escapes gives back any value without a backslash |
| CsvToTab.QuotedUnchanged | textfile/csv_to_tab.go:121-122 | a value is left as is exactly when it has no control rune to escape |
| CsvToTab.QuotedNotInjective | textfile/csv_to_tab.go:117-118 | a literal `\t` and a tab are written the same |
| CsvToTab.WriteRow | textfile/csv_to_tab.go:89-95 | writes the escaped values, joined by tabs |
| CsvToTab.TabRowReadsBack | textfile/csv_to_tab.go:85-97 | reading a written row as TSV gives the escaped values |
| CsvToTab.TabFromRows | textfile/csv_to_tab.go:36-67 | once the header is written, output is one tab row per data row |
| CsvToTab.TabFromHeaderOnce | textfile/csv_to_tab.go:50-58 | with a header, output is the header row once, then one row per data row |
| CsvToTab.NoHeaderRowsLost | textfile/csv_to_tab.go:86-88 | as written, no-header mode writes nothing even when there is data; corrected, it writes the rows |
| CsvToTab.TabFromNoHeaderSilent | textfile/csv_to_tab.go:86-88 | as written, no-header mode writes no data at all |
| CsvToTab.TabFromNoHeaderCorrected | textfile/csv_to_tab.go:85-97 | corrected, no-header mode writes one row per data row |
| CsvToTab.CSVExporter.NewCSVExporter | textfile/csv_to_tab.go:17-22 | starts with comments hidden |
| CsvToTab.CSVExporter.WithShowComments | textfile/csv_to_tab.go:25-28 | sets showComments and returns the same exporter |
| CsvToTab.CSVExporter.WriteHeader | textfile/csv_to_tab.go:70-83 | writes nothing in no-header mode, and otherwise the header as a tab row |
| CsvToTab.CSVExporter.WriteLine | textfile/csv_to_tab.go:85-97 | writes the row as written in the source (nothing in no-header mode) |
| CsvToTab.CSVExporter.WriteFile | textfile/csv_to_tab.go:31-68 | writes exactly `TabFrom`'s output and leaves the reader in `TabFrom`'s final state |
| Viewer.Padded | textfile/viewer.go:99-121 | widening keeps the old entries and pads with a blank value |
| Viewer.FirstData | textfile/viewer.go:91-97 | the index of the first data line among those read, or -1 when there is none |
| Viewer.CellShape | textfile/viewer.go:168-175 | a cell is width+1 runes: the value padded with spaces, or cut to the width and marked `$` |
| Viewer.CellsFrom | textfile/viewer.go:163-177 | writing a row panics exactly when it has more values than there are widths |
| Viewer.EstimateNonNeg | textfile/viewer.go:108-128 | estimated widths are never negative |
| Viewer.WidthsNext | textfile/viewer.go:108-128 | after each line, each width is the clamped maximum of minWidth and the rune lengths seen in that column |
| Viewer.NamesNext | textfile/viewer.go:91-106 | after each line, the names are the first data line's values, padded to the widest row |
| Viewer.HeaderNext | textfile/viewer.go:91-94 | the header index is the first data line's, only when hasHeader is set |
| Viewer.EstimateLength | textfile/viewer.go:80-85 | at most 10000 lines are read for estimation, and exactly that many unless the file ends |
| Viewer.EstimateMeaning | textfile/viewer.go:80-129 | after estimation: the header index, the names and the widths are what the lines read determine |
| Viewer.ShowLinesNoPanic | textfile/viewer.go:131-136 | showing the estimated lines never panics |
| Viewer.StreamPanics | textfile/viewer.go:139-145 | streaming panics exactly when a later data row is wider than the widths |
| Viewer.ViewPanics | textfile/viewer.go:71-148 | the viewer panics exactly when the file goes on past the estimate with a row wider than every estimated row |
| Viewer.CellsLength | textfile/viewer.go:163-177 | a written row is as long as its widths plus the separators |
| Viewer.DashesLength | textfile/viewer.go:180-190 | the dashes have the matching length |
| Viewer.HeaderUnderlined | textfile/viewer.go:159-190 | a fitting header shows as its line then the underline; the line is the underline's length plus the `[n] ` prefix, so without line numbers both are exactly as long |
| Viewer.TextViewer.NewTextViewer | textfile/viewer.go:27-38 | defaults: header on, no line numbers, comments hidden, no width limits, nothing estimated |
| Viewer.TextViewer.WithHasHeader | textfile/viewer.go:41-44 | sets hasHeader |
| Viewer.TextViewer.WithShowLineNum | textfile/viewer.go:47-50 | sets showLineNum |
| Viewer.TextViewer.WithShowComments | textfile/viewer.go:53-56 | sets showComments |
| Viewer.TextViewer.WithMinWidth | textfile/viewer.go:59-62 | sets minWidth |
| Viewer.TextViewer.WithMaxWidth | textfile/viewer.go:65-68 | sets maxWidth |
| Viewer.TextViewer.AddRecord | textfile/viewer.go:87-128 | folds one line into the names, the widths and the header index |
| Viewer.TextViewer.WriteLine | textfile/viewer.go:150-191 | writes the line as `RowText`, panicking exactly when `RowText` does |
| Viewer.TextViewer.EstimateWidths | textfile/viewer.go:80-129 | the estimation loop computes `EstimateFrom` |
| Viewer.TextViewer.ShowEstimated | textfile/viewer.go:131-136 | writes the estimated lines, the header line underlined |
| Viewer.TextViewer.StreamRest | textfile/viewer.go:139-145 | writes the remaining lines as `Stream` |
| Viewer.TextViewer.WriteFile | textfile/viewer.go:71-148 | writes exactly `View`'s output, and leaves the names, the widths and the reader as `View` says |
| Viewer.WriteCells | textfile/viewer.go:163-177 | the cell loop computes `CellsFrom` |
| Viewer.WriteDashes | textfile/viewer.go:180-189 | the dash loop computes `Dashes` |
| Sorter.Less | textfile/sorter.go:200-257 | nil is never less; anything is less than nil; otherwise the first key that differs decides, and a value that fails to parse makes the first record less |
| Sorter.UnparsableLessBothWays | textfile/sorter.go:212-219 | with an unparsable numeric key, each record is less than the other |
| Sorter.CompareFlip | textfile/sorter.go:209-253 | on parsable keys, swapping the records flips the verdict |
| Sorter.CompareNotGtTransitive | textfile/sorter.go:209-253 | "not greater" is transitive on parsable keys |
| Sorter.BeforeIsStrictWeakOrder | textfile/sorter.go:200-257 | on parsable keys, `Less` is irreflexive and asymmetric, and its incomparability is transitive |
| Sorter.BeforeTransitive | textfile/sorter.go:200-257 | on parsable keys, `Less` is transitive |
| Sorter.SortEntries | textfile/sorter.go:85 | sorting permutes the buffer |
| Sorter.SortSorted | textfile/sorter.go:85 | sorting orders the buffer by `Less` |
| Sorter.SortNilLast | textfile/sorter.go:202-207 | sorting puts nil entries last |
| Sorter.SortBuffer | textfile/sorter.go:85 | sorts the buffer array in place |
| Sorter.SortPair | textfile/sorter.go:85 | two entries are swapped exactly when the second is less |
| Sorter.Collect | textfile/sorter.go:81-98 | buffering keeps a position inside the buffer |
| Sorter.CollectHolds | textfile/sorter.go:81-98 | the spilled runs and the buffer's first pos entries hold exactly the records read |
| Sorter.RunsPermutation | textfile/sorter.go:100-117 | corrected, the runs hold exactly the data records, and none is empty |
| Sorter.SortedRun | textfile/sorter.go:84-94 | a sorted buffer of comparable records is written as an ordered run |
| Sorter.RunsOrdered | textfile/sorter.go:81-117 | corrected, every run is ordered under `Less` when every numeric key parses |
| Sorter.LastRunAsWritten | textfile/sorter.go:102-112 | as written, the last run of 2-1-3 with buffer 2 is the stale `2`, not `3` |
| Sorter.SpillLosesRemainder | textfile/sorter.go:102-112 | as written, the runs of 2-1-3 do not hold the records read |
| Sorter.SpillKeepsRemainder | textfile/sorter.go:102-112 | corrected, the runs of 2-1-3 are 1-2 and 3 |
| Sorter.CollectTwoRows | textfile/sorter.go:81-98 | a full buffer is sorted and spilled |
| Sorter.MergeStep | textfile/sorter.go:139-153 | each turn that goes on leaves fewer records to read |
| Sorter.MergeStart | textfile/sorter.go:123-136 | opening gives one reader per run and nothing written |
| Sorter.StartNone | textfile/sorter.go:127-133 | opening fails exactly when some run is empty |
| Sorter.StepKeeps | textfile/sorter.go:138-153 | corrected, a turn keeps the merge invariant: written, buffered and unread records are the total |
| Sorter.MergeFromCorrect | textfile/sorter.go:138-154 | corrected, the merge never panics and writes every record exactly once; from a state keeping the ordering invariant (each reader ordered, nothing buffered or unread below the last record written) the output is ordered under `Less` |
| Sorter.OrderStep | textfile/sorter.go:138-153 | corrected, a turn keeps the ordering invariant: the least buffered record is written, and the record read in its place is not less than it |
| Sorter.StartOrdered | textfile/sorter.go:123-136 | opening ordered, non-empty runs establishes the ordering invariant |
| Sorter.StartKeeps | textfile/sorter.go:123-136 | opening non-empty runs establishes the invariant |
| Sorter.MergeRunsCorrect | textfile/sorter.go:123-154 | corrected, merging non-empty runs writes exactly their records, without panicking, and merging ordered runs writes them in order |
| Sorter.FirstTurnAsWritten | textfile/sorter.go:141-150 | as written, emptying a run leaves its record in the buffer |
| Sorter.SecondTurnAsWritten | textfile/sorter.go:140-150 | as written, that record is written again and its closed reader is read |
| Sorter.MergeDuplicates | textfile/sorter.go:138-154 | as written, merging runs `1` and `2` writes `1` twice and panics |
| Sorter.FirstTurnCorrected | textfile/sorter.go:141-153 | corrected, the emptied run's entry becomes nil |
| Sorter.SecondTurnCorrected | textfile/sorter.go:140-153 | corrected, the next turn writes `2` and closes its run |
| Sorter.MergeKeepsBoth | textfile/sorter.go:138-154 | corrected, merging `1` and `2` writes both, in order |
| Sorter.SortKeepsRecords | textfile/sorter.go:53-154 | corrected, sorting writes every data record exactly once, never panics, and writes them ordered under `Less` when every numeric key parses |
| Sorter.OpenRuns | textfile/sorter.go:123-136 | opens one reader per run; fails with EOF exactly when a run is empty; agrees with `MergeStart` |
| Sorter.LinesAppend | textfile/sorter.go:184-186 | written lines concatenate |
| Sorter.MergeLoop | textfile/sorter.go:138-154 | the merge loop writes `MergeFrom`'s records and panics exactly when it does |
| Sorter.MergeTurn | textfile/sorter.go:139-153 | one turn of the merge loop, as `MergeStep` |
| Sorter.Advance | textfile/sorter.go:146-153 | an emptied run's entry becomes nil and its reader closes; otherwise the entry takes the run's next record |
| Sorter.TempDir.TempFile | textfile/sorter.go:87-105 | creates a name not in use |
| Sorter.TempDir.Remove | textfile/sorter.go:262 | removes the name |
| Sorter.CleanUpTemp | textfile/sorter.go:259-264 | removes every temp file listed |
| Sorter.SpillRun | textfile/sorter.go:84-98 | sorts the buffer, adds it as a run, and records one new temp file |
| Sorter.SortPrefix | textfile/sorter.go:102-103 | corrected: sorts only the first pos entries |
| Sorter.BufferRecord | textfile/sorter.go:81-98 | adds one record to the buffer, as `Push` |
| Sorter.GatherAll | textfile/sorter.go:56-100 | after the header, the records collected are the data rows |
| Sorter.GatherFirst | textfile/sorter.go:56-100 | collection fails only at the first data row, with nothing collected; otherwise it collects the data rows |
| Sorter.SortRecords | textfile/sorter.go:53-154 | the corrected sort permutes the data records, and orders them under `Less` when every numeric key parses |
| Sorter.SortStringKeys | textfile/sorter.go:53-154 | sorting by string columns only, the output is a permutation of the data records and ordered |
| Sorter.SortFileCorrect | textfile/sorter.go:39-158 | the output is the comments shown and the header, then `SortRecords` (every data record once, ordered when every numeric key parses); otherwise the error from the first data row |
| Sorter.SpillRest | textfile/sorter.go:100-117 | the remainder becomes the last run (corrected) |
| Sorter.MergeFiles | textfile/sorter.go:121-157 | opening and merging the runs, with EOF when a run is empty |
| Sorter.TextSorter.NewTextSorter | textfile/sorter.go:22-30 | starts with comments hidden and a 10000-record buffer |
| Sorter.TextSorter.WithShowComments | textfile/sorter.go:32-36 | sets showComments and returns the same sorter |
| Sorter.TextSorter.PopulateColIndex | textfile/sorter.go:161-176 | resolves the sort columns in place, or reports the missing column |
| Sorter.TextSorter.StartData | textfile/sorter.go:70-79 | resolves the columns and writes the raw header line, unless in no-header mode |
| Sorter.TextSorter.Step | textfile/sorter.go:56-79 | one read of the loop: the rest of the collection from the new state is the rest from the old |
| Sorter.TextSorter.Turn | textfile/sorter.go:56-98 | one pass of the read loop keeps the buffer and the runs in step with the records read |
| Sorter.TextSorter.Absorb | textfile/sorter.go:81-98 | adds a data record to the buffer, spilling a full buffer |
| Sorter.TextSorter.ReadAll | textfile/sorter.go:53-100 | the read loop computes `GatherFrom`, and its buffer and runs hold the records read |
| Sorter.TextSorter.WriteFile | textfile/sorter.go:38-158 | writes exactly `SortFile`'s output and error (corrected spill and merge), whose records are ordered by `SortFileCorrect`, and removes every temp file it made |
| Sorter.TextSorter.MergeAll | textfile/sorter.go:100-157 | spills the remainder and merges the runs, as `MergeRuns` |
| Sorter.TextSorter.CleanUp | textfile/sorter.go:259-264 | the deferred cleanup leaves exactly the names that were there before |

## Left out

- Files, standard input and gzip: a file is its decoded text (`DelimitedTextFile`) or its bytes (`Source`). Opening by name, `Close` and gzip decompression are not modelled. The choice `open` makes between gzip, plain and failure is modelled (`OpenFile`).
- Read errors other than EOF: Go panics on them (`bufread/buffered.go:139,156,171`). An `os.File` read never fails in this model.
- UTF-8 decoding: the reader works on runes. Invalid UTF-8 (`utf8.RuneError`) is not modelled.
- TextFile.DelimitedTextFile.PopulateNext: a literal U+FFFD in the file is read as an ordinary rune. Go decodes it as `utf8.RuneError` and takes the refill path (`textfile/textfile.go:145-150`). With 4 or more bytes left in the buffer it returns "remaining buffer is too big(?!?!)" without advancing, so `ReadLine` returns the partial record with that error, or loops for ever when the line has no field yet. Near the end of the file the rune and everything after it are dropped. Which of these happens depends on where the 4096-byte buffer boundary falls, and the rune-level model has no byte buffer. `ScanRecord`, `NextRecord`, `ScanLine` and `ReadLine` inherit this.
- ColumnList.ParseColumnList: requires that the text holds no U+FFFD. The source panics on a decoding error at `cmd/export.go:93-95`, and that panic is not modelled.
- ColumnList.MultiColumnVar.Set: the same U+FFFD requirement, for the same reason.
- `MultiColumnVar.String` and `Type`: pflag's formatting, not modelled.
- Floating point: `strconv.ParseFloat` is the parameter `parse`, returning a real or failure. NaN and rounding are not modelled.
- Sorter.Less: a key index past a row's end reads as an empty cell (`Cell`). In Go that index panics. The keys come from the sorter's columns (`tes.cols`), not from `a[0].cols`.
- Sorter.SortEntries: `sort.Sort` is modelled as a stable insertion sort. Go's algorithm is not stable, so with equal keys the order Go produces can differ.
- Sorter.SortRecords: the output is proved ordered only when every numeric key of every record parses (`RecsComparable`, always true for string keys). An unparsable numeric value makes `Less` true both ways (`UnparsableLessBothWays`), so `sort.Sort` promises no order there.
- Sorter.TextSorter.WriteFile: temp files are modelled as the runs of records they hold. The text round trip through `Clone(...).WithNoHeader(true)` is not modelled. `TempDir` models only file names. A failure to create a temp file is not modelled.
- Sorter.TextSorter.WriteFile: requires `sortBufferLen > 0`, which the constant 10000 satisfies.
- Sorter.Recs: a nil entry is dropped from a run, where the source would pass nil to `writeLine` and panic.
- TextFile.GetValue: requires the header position to lie inside the row. Go indexes `Values` without a check and panics otherwise.
- `TextRecord.parent`: the link back to the reader is not modelled. `Flag` is a plain field, always false.
- `isEOF` in `DelimitedTextFile`: it is only written (`textfile/textfile.go:280`), so it is not modelled.
- Support.MaxInt: requires at least one argument. Go indexes `nums[0]` and panics on none.
- Support.MinInt: the same requirement, for the same reason.
- Concurrency: none in the core.

## Findings

| source | as written | input that shows it | evidently intended | confidence | as-written member | corrected member |
|---|---|---|---|---|---|---|
| textfile/sorter.go:102-103 | the remainder of the buffer is sorted over the whole buffer, and `records[:pos]` is spilled | buffer length 2, data rows 2, 1, 3: the last run is the stale `2`, and `3` is lost | sort only `records[:pos]` | not executed | Sorter.SpillLosesRemainder | Sorter.RunsPermutation |
| textfile/sorter.go:146-150 | `lowest.val = nil` clears a copy, so the buffer keeps the emptied run's record | runs `1` and `2`: `1` is written twice, then the nil reader is read | clear `sortBuffer[0].val` | not executed | Sorter.MergeDuplicates | Sorter.MergeRunsCorrect |
| textfile/textfile.go:408-413 | `Peek` of 2 bytes returns EOF on a 1-byte file, and `open` returns that error | the file `a`: `ReadLine` returns EOF and the record `a` is lost | a short file is plain text | not executed | TextFileProps.ShortFileLost | TextFile.OpenFileCorrected |
| textfile/csv_to_tab.go:86-88 | `writeLine` returns without writing in no-header mode | no-header mode with any data row: nothing is written | only the header is skipped | not executed | CsvToTab.NoHeaderRowsLost | CsvToTab.TabFromNoHeaderCorrected |
