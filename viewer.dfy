/**
 * `TextViewer`: shows a delimited file as aligned columns. The widths come from the first
 * `LinesForEstimation` records, which are then shown; the rest of the file is streamed with the
 * same widths.
 */
module Viewer {
  import opened StringUtil
  import opened TextFile
  import opened Support

  /** How many records (comments included) the width estimation reads. */
  const LinesForEstimation: nat := 10000

  /** The viewer's settings. */
  datatype ViewOptions = ViewOptions(showComments: bool, showLineNum: bool, hasHeader: bool,
                                     minWidth: int, maxWidth: int)

  // ---------------------------------------------------------------------------------------------
  // Width estimation

  /** The cap `maxWidth` puts on a width when it is positive. */
  function Cap(o: ViewOptions, x: int): int
  {
    if o.maxWidth > 0 then MinOf([x, o.maxWidth]) else x
  }

  /** A column's width after one more value: at least `minWidth`, the old width and the value's length, capped. */
  function Widened(o: ViewOptions, w: int, v: string): int
  {
    Cap(o, MaxOf([o.minWidth, w, |v|]))
  }

  /** A slice grown to length `n`, the new slots holding `pad`. */
  function Padded<T>(s: seq<T>, n: nat, pad: T): (r: seq<T>)
    ensures |r| == if |s| < n then n else |s|
    ensures r[..|s|] == s
    ensures forall j :: |s| <= j < |r| ==> r[j] == pad
  {
    if |s| < n then s + seq(n - |s|, _ => pad) else s
  }

  /** The widths after the values of one record, column by column. */
  function Widen(o: ViewOptions, ws: seq<int>, vs: seq<string>): seq<int>
    requires |ws| >= |vs|
  {
    seq(|ws|, j requires 0 <= j < |ws| => if j < |vs| then Widened(o, ws[j], vs[j]) else ws[j])
  }

  /** A fresh slice of `n` zero widths. */
  function Zeros(n: nat): (r: seq<int>)
    ensures |r| == n && forall j :: 0 <= j < n ==> r[j] == 0
  {
    seq(n, _ => 0)
  }

  /** What the estimation keeps: the viewer's column names and widths, and the header's position. */
  datatype Estimate = Estimate(names: Option<seq<string>>, widths: Option<seq<int>>, headerIdx: int)

  /**
   * One data record, the `i`-th record read: the first one names the columns (and is the header
   * when the file has one); names and widths grow to the record's width; each width takes in the
   * record's value.
   */
  function EstStep(o: ViewOptions, e: Estimate, i: int, vs: seq<string>): Estimate
  {
    var names := if e.names.None? then vs else e.names.value;
    var idx := if e.names.None? && o.hasHeader then i else e.headerIdx;
    var ws := Padded(if e.widths.None? then Zeros(|vs|) else e.widths.value, |vs|, 0);
    Estimate(Some(Padded(names, |vs|, "")), Some(Widen(o, ws, vs)), idx)
  }

  /** The estimation's result: the estimate, the records read (kept for showing), the state, and whether the file ended. */
  datatype Estimation = Estimation(est: Estimate, lines: seq<TextRecord>, after: ParserState, ended: bool)

  /** The estimation loop from its `i`-th round on, with estimate `e` so far. */
  function EstimateFrom(o: ViewOptions, f: Format, m: Mode, p: ParserState, e: Estimate, i: nat): Estimation
    decreases LinesForEstimation - i
  {
    if i >= LinesForEstimation then Estimation(e, [], p, false)
    else
      var n := NextRecord(f, m, p);
      if n.0.EndOfFile? then Estimation(e, [], n.1, true)
      else
        var r := EstimateFrom(o, f, m, n.1, Absorb(o, e, i, n.0.rec), i + 1);
        r.(lines := [n.0.rec] + r.lines)
  }

  /** The estimate after the `i`-th record read: a comment leaves it as it is. */
  function Absorb(o: ViewOptions, e: Estimate, i: int, rec: TextRecord): Estimate
  {
    if rec.values.None? then e else EstStep(o, e, i, rec.values.value)
  }

  /** The longest value in column `j` among the data records of `recs` (0 when there is none). */
  function ColumnMax(recs: seq<TextRecord>, j: nat): nat
  {
    if recs == [] then 0
    else
      var last := recs[|recs| - 1];
      var rest := ColumnMax(recs[..|recs| - 1], j);
      if last.values.Some? && j < |last.values.value| && |last.values.value[j]| > rest
      then |last.values.value[j]| else rest
  }

  /** The widest data record of `recs` (0 when there is none). */
  function MaxColumns(recs: seq<TextRecord>): nat
  {
    if recs == [] then 0
    else
      var last := recs[|recs| - 1];
      var rest := MaxColumns(recs[..|recs| - 1]);
      if last.values.Some? && |last.values.value| > rest then |last.values.value| else rest
  }

  /** `recs` holds a data record. */
  predicate HasData(recs: seq<TextRecord>)
  {
    exists k :: 0 <= k < |recs| && recs[k].values.Some?
  }

  /** The position of the first data record of `recs`, or -1. */
  function FirstData(recs: seq<TextRecord>): (r: int)
    ensures -1 <= r < |recs|
    ensures r >= 0 ==> recs[r].values.Some? && forall k :: 0 <= k < r ==> recs[k].values.None?
    ensures r == -1 ==> forall k :: 0 <= k < |recs| ==> recs[k].values.None?
  {
    if recs == [] then -1
    else if recs[0].values.Some? then 0
    else
      var r := FirstData(recs[1..]);
      if r == -1 then -1 else r + 1
  }

  // Arithmetic of the clamp.

  /** `MaxOf` of three values. */
  lemma MaxOfThree(a: int, b: int, c: int)
    ensures MaxOf([a, b, c]) == if (if a >= b then a else b) >= c then (if a >= b then a else b) else c
  {
    assert [a, b, c][..2] == [a, b] && [a, b][..1] == [a];
    assert MaxOf([a]) == a;
    assert MaxOf([a, b]) == if a >= b then a else b;
  }

  /** `MinOf` of two values. */
  lemma MinOfTwo(a: int, b: int)
    ensures MinOf([a, b]) == if a <= b then a else b
  {
    assert [a, b][..1] == [a];
  }

  /** Taking in one more length: the capped running maximum stays the cap of the maximum. */
  lemma WidenedCap(o: ViewOptions, x: int, v: string)
    requires x >= o.minWidth
    ensures Widened(o, Cap(o, x), v) == Cap(o, if x >= |v| then x else |v|)
  {
    var y := if x >= |v| then x else |v|;
    MaxOfThree(o.minWidth, Cap(o, x), |v|);
    if o.maxWidth > 0 {
      MinOfTwo(x, o.maxWidth);
      MinOfTwo(y, o.maxWidth);
      MinOfTwo(MaxOf([o.minWidth, Cap(o, x), |v|]), o.maxWidth);
    }
  }

  /** The width column `j` should have after the records `recs`: the longest value, at least `minWidth`, capped. */
  function Expected(o: ViewOptions, recs: seq<TextRecord>, j: nat): int
  {
    Cap(o, if o.minWidth >= ColumnMax(recs, j) then o.minWidth else ColumnMax(recs, j))
  }

  // ---------------------------------------------------------------------------------------------
  // writeLine

  /**
   * One cell of a width-`w` column: a value that fits is padded to `w` runes and followed by a
   * space; a longer one is cut to `w` runes and followed by `$`. Either way the cell is `w + 1`
   * runes long.
   */
  function Cell(w: nat, v: string): string
  {
    if |v| <= w then PadRight(v, w) + " " else v[..w] + "$"
  }

  /**
   * A cell is `w + 1` runes long: a value that fits comes first and spaces fill the rest; a longer
   * one is cut to its first `w` runes, then `$`.
   */
  lemma CellShape(w: nat, v: string)
    ensures |Cell(w, v)| == w + 1
    ensures |v| <= w ==> Cell(w, v)[..|v|] == v && forall k :: |v| <= k <= w ==> Cell(w, v)[k] == ' '
    ensures |v| > w ==> Cell(w, v)[..w] == v[..w] && Cell(w, v)[w] == '$'
  {
    if |v| <= w {
      var r := Cell(w, v);
      assert r == PadRight(v, w) + " ";
      assert r[..|v|] == PadRight(v, w)[..|v|];
    }
  }

  /** Widths that are never negative. */
  predicate NonNeg(ws: seq<int>)
  {
    forall j :: 0 <= j < |ws| ==> ws[j] >= 0
  }

  /**
   * The cell loop of `writeLine` from value `i` on: `| ` before every cell but the first; a value
   * beyond the widths panics (`true`) right after its separator.
   */
  function CellsFrom(ws: seq<int>, vs: seq<string>, i: nat): (r: (string, bool))
    requires NonNeg(ws) && i <= |vs|
    ensures r.1 <==> i < |vs| && |vs| > |ws|
    decreases |vs| - i
  {
    if i == |vs| then ([], false)
    else
      var pre: string := if i > 0 then "| " else [];
      if i >= |ws| then (pre, true)
      else
        var rest := CellsFrom(ws, vs, i + 1);
        (pre + Cell(ws[i], vs[i]) + rest.0, rest.1)
  }

  /** The dash loop under the header from column `i` on: `-+-` before every run of dashes but the first. */
  function Dashes(ws: seq<int>, i: nat, n: nat): string
    requires NonNeg(ws) && i <= n <= |ws|
    decreases n - i
  {
    if i == n then []
    else (if i > 0 then "-+-" else []) + Repeat('-', ws[i]) + Dashes(ws, i + 1, n)
  }

  /** The line under the header of `n` columns: the dashes, then `-` and a line end. */
  function DashLine(ws: seq<int>, n: nat): string
    requires NonNeg(ws) && n <= |ws|
  {
    Dashes(ws, 0, n) + "-\n"
  }

  /** A comment as shown: without its line end (`\n`, then `\r`), then `\n`, and only when comments are shown. */
  function CommentText(o: ViewOptions, raw: string): string
  {
    if o.showComments then TrimSuffix(TrimSuffix(raw, "\n"), "\r") + "\n" else []
  }

  /** What `writeLine` puts before a data line's cells: `[n] ` with line numbers, else nothing. */
  function LineNumPrefix(o: ViewOptions, rec: TextRecord): string
  {
    if o.showLineNum then "[" + DecimalString(rec.dataLineNum) + "] " else []
  }

  /** `writeLine`: what a record shows, and whether it panics. */
  function RowText(o: ViewOptions, ws: seq<int>, rec: TextRecord, isHeader: bool): (string, bool)
    requires NonNeg(ws)
  {
    if rec.values.None? then (CommentText(o, rec.rawString), false)
    else
      var vs := rec.values.value;
      var prefix := LineNumPrefix(o, rec);
      var c := CellsFrom(ws, vs, 0);
      if c.1 then (prefix + c.0, true)
      else (prefix + c.0 + "\n" + (if isHeader then DashLine(ws, |vs|) else []), false)
  }

  /** The first loop over the estimation's records, from the `k`-th on: the header's record gets its dashes. */
  function ShowLines(o: ViewOptions, ws: seq<int>, lines: seq<TextRecord>, headerIdx: int, k: nat): (r: (string, bool))
    requires NonNeg(ws) && k <= |lines|
    decreases |lines| - k
  {
    if k == |lines| then ([], false)
    else
      var row := RowText(o, ws, lines[k], k == headerIdx);
      if row.1 then row
      else
        var rest := ShowLines(o, ws, lines, headerIdx, k + 1);
        (row.0 + rest.0, rest.1)
  }

  /** What the viewer produces: the text shown, whether it panicked, the estimate, and the file's state. */
  datatype ViewRun = ViewRun(out: string, panicked: bool, est: Estimate, after: ParserState)

  /** The second loop: the rest of the file, no record being the header. */
  function Stream(o: ViewOptions, ws: seq<int>, f: Format, m: Mode, p: ParserState): (r: (string, bool, ParserState))
    requires NonNeg(ws)
    decreases |p.pending|
  {
    var n := NextRecord(f, m, p);
    if n.0.EndOfFile? then ([], false, n.1)
    else
      var row := RowText(o, ws, n.0.rec, false);
      if row.1 then (row.0, true, n.1)
      else
        var rest := Stream(o, ws, f, m, n.1);
        (row.0 + rest.0, rest.1, rest.2)
  }

  /** The widths an estimate gives `writeLine` (none yet reads as an empty slice). */
  function WidthsOf(e: Estimate): seq<int>
  {
    if e.widths.Some? then e.widths.value else []
  }

  /**
   * `WriteFile` from parser state `p` and the viewer's names and widths `e0`: estimate, show the
   * estimation's records, then stream the rest unless the file already ended.
   */
  function View(o: ViewOptions, f: Format, m: Mode, p: ParserState, e0: Estimate): ViewRun
    requires NonNeg(WidthsOf(e0))
  {
    EstimateNonNeg(o, f, m, p, e0, 0);
    Show(o, f, m, EstimateFrom(o, f, m, p, e0, 0))
  }

  /** What `WriteFile` shows after the estimation `r`. */
  function Show(o: ViewOptions, f: Format, m: Mode, r: Estimation): ViewRun
    requires NonNeg(WidthsOf(r.est))
  {
    var ws := WidthsOf(r.est);
    var shown := ShowLines(o, ws, r.lines, r.est.headerIdx, 0);
    if shown.1 || r.ended then ViewRun(shown.0, shown.1, r.est, r.after)
    else
      var s := Stream(o, ws, f, m, r.after);
      ViewRun(shown.0 + s.0, s.1, r.est, s.2)
  }

  // ---------------------------------------------------------------------------------------------
  // Properties

  /** Widths stay non-negative through a step. */
  lemma EstStepNonNeg(o: ViewOptions, e: Estimate, i: int, vs: seq<string>)
    requires NonNeg(WidthsOf(e))
    ensures NonNeg(WidthsOf(EstStep(o, e, i, vs)))
  {
    var ws := Padded(if e.widths.None? then Zeros(|vs|) else e.widths.value, |vs|, 0);
    assert NonNeg(ws);
    var r := Widen(o, ws, vs);
    forall j | 0 <= j < |vs|
      ensures r[j] >= 0
    {
      MaxOfThree(o.minWidth, ws[j], |vs[j]|);
      if o.maxWidth > 0 {
        MinOfTwo(MaxOf([o.minWidth, ws[j], |vs[j]|]), o.maxWidth);
      }
    }
  }

  /** Widths stay non-negative through the estimation. */
  lemma {:induction false} EstimateNonNeg(o: ViewOptions, f: Format, m: Mode, p: ParserState, e: Estimate, i: nat)
    requires NonNeg(WidthsOf(e))
    ensures NonNeg(WidthsOf(EstimateFrom(o, f, m, p, e, i).est))
    decreases LinesForEstimation - i, 1
  {
    var n := NextRecord(f, m, p);
    if i < LinesForEstimation && n.0.Record? {
      EstimateNonNegAt(o, f, m, p, e, i, n.0.rec, n.1);
    } else {
      EstimateStops(o, f, m, p, e, i);
    }
  }

  /** `EstimateNonNeg` at a record read. */
  lemma {:induction false} EstimateNonNegAt(o: ViewOptions, f: Format, m: Mode, p: ParserState, e: Estimate, i: nat,
                                            rec: TextRecord, q: ParserState)
    requires NonNeg(WidthsOf(e)) && i < LinesForEstimation && NextRecord(f, m, p) == (Record(rec), q)
    ensures NonNeg(WidthsOf(EstimateFrom(o, f, m, p, e, i).est))
    decreases LinesForEstimation - i, 0
  {
    AbsorbNonNeg(o, e, i, rec);
    EstimateNonNeg(o, f, m, q, Absorb(o, e, i, rec), i + 1);
    EstimateNonNegStep(o, f, m, p, e, i, rec, q);
  }

  /** Past the estimation's lines, or at the end of the file, the estimate is left as it is. */
  lemma EstimateStops(o: ViewOptions, f: Format, m: Mode, p: ParserState, e: Estimate, i: nat)
    requires !(i < LinesForEstimation && NextRecord(f, m, p).0.Record?)
    ensures EstimateFrom(o, f, m, p, e, i).est == e
  {
  }

  /** A record absorbed keeps the widths non-negative. */
  lemma AbsorbNonNeg(o: ViewOptions, e: Estimate, i: nat, rec: TextRecord)
    requires NonNeg(WidthsOf(e))
    ensures NonNeg(WidthsOf(Absorb(o, e, i, rec)))
  {
    if rec.values.Some? {
      EstStepNonNeg(o, e, i, rec.values.value);
    }
  }

  /** `EstimateNonNeg` at a record read, from its value after the record. */
  lemma EstimateNonNegStep(o: ViewOptions, f: Format, m: Mode, p: ParserState, e: Estimate, i: nat,
                           rec: TextRecord, q: ParserState)
    requires i < LinesForEstimation && NextRecord(f, m, p) == (Record(rec), q)
    requires NonNeg(WidthsOf(EstimateFrom(o, f, m, q, Absorb(o, e, i, rec), i + 1).est))
    ensures NonNeg(WidthsOf(EstimateFrom(o, f, m, p, e, i).est))
  {
    EstimateAtRecord(o, f, m, p, e, i, [], rec, q);
  }

  // What the estimation computes.

  /** `seen` followed by one more record. */
  lemma Snoc(seen: seq<TextRecord>, rec: TextRecord)
    ensures (seen + [rec])[..|seen|] == seen && (seen + [rec])[|seen|] == rec
  {
  }

  /** One more record has data exactly when the new record does or an earlier one did. */
  lemma HasDataSnoc(seen: seq<TextRecord>, rec: TextRecord)
    ensures HasData(seen + [rec]) <==> HasData(seen) || rec.values.Some?
  {
    var s := seen + [rec];
    if HasData(seen) {
      var k :| 0 <= k < |seen| && seen[k].values.Some?;
      assert s[k] == seen[k];
    }
    if rec.values.Some? {
      assert s[|seen|] == rec;
    }
    if HasData(s) {
      var k :| 0 <= k < |s| && s[k].values.Some?;
      if k < |seen| {
        assert s[k] == seen[k];
      }
    }
  }

  /** The first data record does not move when a record is added after it; it is the new one when there was none. */
  lemma FirstDataSnoc(seen: seq<TextRecord>, rec: TextRecord)
    ensures HasData(seen) ==> FirstData(seen + [rec]) == FirstData(seen)
    ensures !HasData(seen) && rec.values.Some? ==> FirstData(seen + [rec]) == |seen|
  {
    var s := seen + [rec];
    assert forall q :: 0 <= q < |seen| ==> s[q] == seen[q];
    assert s[|seen|] == rec;
    if HasData(seen) {
      var k :| 0 <= k < |seen| && seen[k].values.Some?;
      var r0 := FirstData(seen);
      assert r0 != -1 && s[k].values.Some?;
      assert FirstData(s) == r0;
    } else if rec.values.Some? {
      assert forall q :: 0 <= q < |seen| ==> seen[q].values.None?;
      assert FirstData(s) == |seen|;
    }
  }

  /** The header's position fits `seen`: its first data record when the viewer has a header, else -1. */
  predicate HeaderFits(o: ViewOptions, headerIdx: int, seen: seq<TextRecord>)
  {
    headerIdx == if o.hasHeader && HasData(seen) then FirstData(seen) else -1
  }

  /** The names fit `seen`: the first data record's values, padded with empty names to the widest record. */
  predicate NamesFit(names: Option<seq<string>>, seen: seq<TextRecord>)
  {
    (names.Some? <==> HasData(seen))
    && (HasData(seen) ==>
          var first := seen[FirstData(seen)].values.value;
          |names.value| == MaxColumns(seen)
          && forall j :: 0 <= j < |names.value| ==> names.value[j] == if j < |first| then first[j] else "")
  }

  /** The widths fit `seen`: `Expected` for each column, as many as the widest record. */
  predicate WidthsFit(o: ViewOptions, widths: Option<seq<int>>, seen: seq<TextRecord>)
  {
    (widths.Some? <==> HasData(seen))
    && (HasData(seen) ==>
          |widths.value| == MaxColumns(seen)
          && forall j :: 0 <= j < |widths.value| ==> widths.value[j] == Expected(o, seen, j))
  }

  /** The first data record is among the widest. */
  lemma {:induction false} FirstWithin(recs: seq<TextRecord>)
    ensures forall k :: 0 <= k < |recs| && recs[k].values.Some? ==> |recs[k].values.value| <= MaxColumns(recs)
  {
    if recs != [] {
      var init := recs[..|recs| - 1];
      FirstWithin(init);
      forall k | 0 <= k < |recs| && recs[k].values.Some?
        ensures |recs[k].values.value| <= MaxColumns(recs)
      {
        if k < |init| {
          assert recs[k] == init[k];
        }
      }
    }
  }

  /** A comment record changes none of what the estimate should be. */
  lemma CommentSnoc(seen: seq<TextRecord>, rec: TextRecord)
    requires rec.values.None?
    ensures HasData(seen + [rec]) == HasData(seen) && MaxColumns(seen + [rec]) == MaxColumns(seen)
    ensures HasData(seen) ==>
              FirstData(seen + [rec]) == FirstData(seen) && (seen + [rec])[FirstData(seen)] == seen[FirstData(seen)]
    ensures forall j: nat :: ColumnMax(seen + [rec], j) == ColumnMax(seen, j)
  {
    var s := seen + [rec];
    Snoc(seen, rec);
    HasDataSnoc(seen, rec);
    FirstDataSnoc(seen, rec);
    assert s[..|s| - 1] == seen;
  }

  /** The widths after a data record are `Expected` of the records so far. */
  lemma WidthsStep(o: ViewOptions, e: Estimate, seen: seq<TextRecord>, rec: TextRecord)
    requires WidthsFit(o, e.widths, seen) && rec.values.Some?
    ensures var s := seen + [rec];
      var ws := EstStep(o, e, |seen|, rec.values.value).widths.value;
      |ws| == MaxColumns(s) && forall j :: 0 <= j < |ws| ==> ws[j] == Expected(o, s, j)
  {
    var s := seen + [rec];
    var vs := rec.values.value;
    Snoc(seen, rec);
    var base := Padded(if e.widths.None? then Zeros(|vs|) else e.widths.value, |vs|, 0);
    var ws := EstStep(o, e, |seen|, vs).widths.value;
    assert ws == Widen(o, base, vs);
    assert s[..|s| - 1] == seen && s[|s| - 1] == rec;
    if HasData(seen) {
      assert |e.widths.value| == MaxColumns(seen);
    } else {
      ColumnMaxNone(seen, 0);
    }
    assert |ws| == MaxColumns(s);
    forall j | 0 <= j < |ws|
      ensures ws[j] == Expected(o, s, j)
    {
      var x := if o.minWidth >= ColumnMax(seen, j) then o.minWidth else ColumnMax(seen, j);
      if HasData(seen) && j < |e.widths.value| {
        assert base[j] == Cap(o, x);
      } else {
        assert ColumnMax(seen, j) == 0 by {
          if HasData(seen) {
            ColumnMaxBeyond(seen, j);
          } else {
            ColumnMaxNone(seen, j);
          }
        }
        assert base[j] == 0;
        if j < |vs| {
          MaxOfThree(o.minWidth, 0, |vs[j]|);
          assert Widened(o, 0, vs[j]) == Cap(o, if x >= |vs[j]| then x else |vs[j]|);
        }
      }
      if j < |vs| {
        if HasData(seen) && j < |e.widths.value| {
          WidenedCap(o, x, vs[j]);
        }
      } else {
        assert j < |e.widths.value|;
      }
    }
  }

  /** A column beyond the widest record holds nothing. */
  lemma {:induction false} ColumnMaxBeyond(recs: seq<TextRecord>, j: nat)
    requires j >= MaxColumns(recs)
    ensures ColumnMax(recs, j) == 0
  {
    if recs != [] {
      ColumnMaxBeyond(recs[..|recs| - 1], j);
    }
  }

  /** Records without data hold nothing in any column. */
  lemma {:induction false} ColumnMaxNone(recs: seq<TextRecord>, j: nat)
    requires !HasData(recs)
    ensures ColumnMax(recs, j) == 0 && MaxColumns(recs) == 0
  {
    if recs != [] {
      var init := recs[..|recs| - 1];
      assert forall k :: 0 <= k < |init| ==> init[k] == recs[k];
      assert recs[|recs| - 1].values.None?;
      ColumnMaxNone(init, j);
    }
  }

  /** The names after a data record fit the records so far. */
  lemma NamesStep(o: ViewOptions, e: Estimate, seen: seq<TextRecord>, rec: TextRecord)
    requires NamesFit(e.names, seen) && rec.values.Some?
    ensures NamesFit(EstStep(o, e, |seen|, rec.values.value).names, seen + [rec])
  {
    var s := seen + [rec];
    var vs := rec.values.value;
    var names := EstStep(o, e, |seen|, vs).names.value;
    Snoc(seen, rec);
    HasDataSnoc(seen, rec);
    FirstDataSnoc(seen, rec);
    assert s[..|s| - 1] == seen && s[|s| - 1] == rec;
    var first := s[FirstData(s)].values.value;
    if HasData(seen) {
      assert s[FirstData(seen)] == seen[FirstData(seen)];
      FirstWithin(seen);
      var oldNames := e.names.value;
      assert names == Padded(oldNames, |vs|, "");
      forall j | 0 <= j < |names|
        ensures names[j] == if j < |first| then first[j] else ""
      {
        if j < |oldNames| {
          assert names[j] == names[..|oldNames|][j];
        }
      }
    } else {
      ColumnMaxNone(seen, 0);
      assert first == vs;
      assert names == Padded(vs, |vs|, "");
    }
  }

  /** Any record keeps the widths fitting the records so far. */
  lemma WidthsNext(o: ViewOptions, e: Estimate, seen: seq<TextRecord>, rec: TextRecord)
    requires WidthsFit(o, e.widths, seen)
    ensures WidthsFit(o, Absorb(o, e, |seen|, rec).widths, seen + [rec])
  {
    HasDataSnoc(seen, rec);
    if rec.values.None? {
      CommentSnoc(seen, rec);
    } else {
      WidthsStep(o, e, seen, rec);
    }
  }

  /** Any record keeps the names fitting the records so far. */
  lemma NamesNext(o: ViewOptions, e: Estimate, seen: seq<TextRecord>, rec: TextRecord)
    requires NamesFit(e.names, seen)
    ensures NamesFit(Absorb(o, e, |seen|, rec).names, seen + [rec])
  {
    if rec.values.None? {
      CommentSnoc(seen, rec);
    } else {
      NamesStep(o, e, seen, rec);
    }
  }

  /** Any record keeps the header's position fitting the records so far. */
  lemma HeaderNext(o: ViewOptions, e: Estimate, seen: seq<TextRecord>, rec: TextRecord)
    requires HeaderFits(o, e.headerIdx, seen) && (e.names.Some? <==> HasData(seen))
    ensures var e2 := Absorb(o, e, |seen|, rec);
      HeaderFits(o, e2.headerIdx, seen + [rec]) && (e2.names.Some? <==> HasData(seen + [rec]))
  {
    HasDataSnoc(seen, rec);
    FirstDataSnoc(seen, rec);
  }

  /** The estimation loop reads at most `LinesForEstimation` records, all of them unless the file ends. */
  lemma {:induction false} EstimateLength(o: ViewOptions, f: Format, m: Mode, p: ParserState, e: Estimate,
                                         seen: seq<TextRecord>)
    requires |seen| <= LinesForEstimation
    ensures var r := Grown(seen, EstimateFrom(o, f, m, p, e, |seen|)); |r.lines| <= LinesForEstimation && (!r.ended ==> |r.lines| == LinesForEstimation)
    decreases LinesForEstimation - |seen|
  {
    var n := NextRecord(f, m, p);
    if |seen| >= LinesForEstimation {
      EstimateAtLimit(o, f, m, p, e, |seen|, seen);
    } else if n.0.EndOfFile? {
      EstimateAtEnd(o, f, m, p, e, |seen|, seen, n.1);
    } else {
      var rec, q := n.0.rec, n.1;
      EstimateLength(o, f, m, q, Absorb(o, e, |seen|, rec), seen + [rec]);
      EstimateAtRecord(o, f, m, p, e, |seen|, seen, rec, q);
    }
  }

  /** The estimation loop keeps the widths fitting the records it has read. */
  lemma {:induction false} EstimateWidths(o: ViewOptions, f: Format, m: Mode, p: ParserState, e: Estimate,
                                         seen: seq<TextRecord>)
    requires WidthsFit(o, e.widths, seen)
    ensures var r := Grown(seen, EstimateFrom(o, f, m, p, e, |seen|)); WidthsFit(o, r.est.widths, r.lines)
    decreases LinesForEstimation - |seen|
  {
    var n := NextRecord(f, m, p);
    if |seen| >= LinesForEstimation || n.0.EndOfFile? {
      EstimateWidthsStop(o, f, m, p, e, seen);
    } else {
      var rec, q := n.0.rec, n.1;
      WidthsNext(o, e, seen, rec);
      EstimateWidths(o, f, m, q, Absorb(o, e, |seen|, rec), seen + [rec]);
      EstimateWidthsStep(o, f, m, p, e, seen, rec, q);
    }
  }

  /** `EstimateWidths` where the loop stops. */
  lemma EstimateWidthsStop(o: ViewOptions, f: Format, m: Mode, p: ParserState, e: Estimate, seen: seq<TextRecord>)
    requires WidthsFit(o, e.widths, seen)
    requires |seen| >= LinesForEstimation || NextRecord(f, m, p).0.EndOfFile?
    ensures var r := Grown(seen, EstimateFrom(o, f, m, p, e, |seen|)); WidthsFit(o, r.est.widths, r.lines)
  {
    if |seen| >= LinesForEstimation {
      EstimateAtLimit(o, f, m, p, e, |seen|, seen);
    } else {
      EstimateAtEnd(o, f, m, p, e, |seen|, seen, NextRecord(f, m, p).1);
    }
  }

  /** `EstimateWidths` at a record read, from its value after the record. */
  lemma EstimateWidthsStep(o: ViewOptions, f: Format, m: Mode, p: ParserState, e: Estimate, seen: seq<TextRecord>,
                           rec: TextRecord, q: ParserState)
    requires |seen| < LinesForEstimation && NextRecord(f, m, p) == (Record(rec), q)
    requires var r := Grown(seen + [rec], EstimateFrom(o, f, m, q, Absorb(o, e, |seen|, rec), |seen + [rec]|)); WidthsFit(o, r.est.widths, r.lines)
    ensures var r := Grown(seen, EstimateFrom(o, f, m, p, e, |seen|)); WidthsFit(o, r.est.widths, r.lines)
  {
    EstimateAtSeen(o, f, m, p, e, seen, rec, q);
  }


  /** The estimation loop keeps the names fitting the records it has read. */
  lemma {:induction false} EstimateNames(o: ViewOptions, f: Format, m: Mode, p: ParserState, e: Estimate,
                                        seen: seq<TextRecord>)
    requires NamesFit(e.names, seen)
    ensures var r := Grown(seen, EstimateFrom(o, f, m, p, e, |seen|)); NamesFit(r.est.names, r.lines)
    decreases LinesForEstimation - |seen|
  {
    var n := NextRecord(f, m, p);
    if |seen| >= LinesForEstimation || n.0.EndOfFile? {
      EstimateNamesStop(o, f, m, p, e, seen);
    } else {
      var rec, q := n.0.rec, n.1;
      NamesNext(o, e, seen, rec);
      EstimateNames(o, f, m, q, Absorb(o, e, |seen|, rec), seen + [rec]);
      EstimateNamesStep(o, f, m, p, e, seen, rec, q);
    }
  }

  /** `EstimateNames` where the loop stops. */
  lemma EstimateNamesStop(o: ViewOptions, f: Format, m: Mode, p: ParserState, e: Estimate, seen: seq<TextRecord>)
    requires NamesFit(e.names, seen)
    requires |seen| >= LinesForEstimation || NextRecord(f, m, p).0.EndOfFile?
    ensures var r := Grown(seen, EstimateFrom(o, f, m, p, e, |seen|)); NamesFit(r.est.names, r.lines)
  {
    if |seen| >= LinesForEstimation {
      EstimateAtLimit(o, f, m, p, e, |seen|, seen);
    } else {
      EstimateAtEnd(o, f, m, p, e, |seen|, seen, NextRecord(f, m, p).1);
    }
  }

  /** `EstimateNames` at a record read, from its value after the record. */
  lemma EstimateNamesStep(o: ViewOptions, f: Format, m: Mode, p: ParserState, e: Estimate, seen: seq<TextRecord>,
                          rec: TextRecord, q: ParserState)
    requires |seen| < LinesForEstimation && NextRecord(f, m, p) == (Record(rec), q)
    requires var r := Grown(seen + [rec], EstimateFrom(o, f, m, q, Absorb(o, e, |seen|, rec), |seen + [rec]|)); NamesFit(r.est.names, r.lines)
    ensures var r := Grown(seen, EstimateFrom(o, f, m, p, e, |seen|)); NamesFit(r.est.names, r.lines)
  {
    EstimateAtSeen(o, f, m, p, e, seen, rec, q);
  }


  /** The estimation loop keeps the header's position fitting the records it has read. */
  lemma {:induction false} EstimateHeader(o: ViewOptions, f: Format, m: Mode, p: ParserState, e: Estimate,
                                         seen: seq<TextRecord>)
    requires HeaderFits(o, e.headerIdx, seen) && (e.names.Some? <==> HasData(seen))
    ensures var r := Grown(seen, EstimateFrom(o, f, m, p, e, |seen|)); HeaderFits(o, r.est.headerIdx, r.lines)
    decreases LinesForEstimation - |seen|
  {
    var n := NextRecord(f, m, p);
    if |seen| >= LinesForEstimation || n.0.EndOfFile? {
      EstimateHeaderStop(o, f, m, p, e, seen);
    } else {
      var rec, q := n.0.rec, n.1;
      HeaderNext(o, e, seen, rec);
      EstimateHeader(o, f, m, q, Absorb(o, e, |seen|, rec), seen + [rec]);
      EstimateHeaderStep(o, f, m, p, e, seen, rec, q);
    }
  }

  /** `EstimateHeader` where the loop stops. */
  lemma EstimateHeaderStop(o: ViewOptions, f: Format, m: Mode, p: ParserState, e: Estimate, seen: seq<TextRecord>)
    requires HeaderFits(o, e.headerIdx, seen) && (e.names.Some? <==> HasData(seen))
    requires |seen| >= LinesForEstimation || NextRecord(f, m, p).0.EndOfFile?
    ensures var r := Grown(seen, EstimateFrom(o, f, m, p, e, |seen|)); HeaderFits(o, r.est.headerIdx, r.lines)
  {
    if |seen| >= LinesForEstimation {
      EstimateAtLimit(o, f, m, p, e, |seen|, seen);
    } else {
      EstimateAtEnd(o, f, m, p, e, |seen|, seen, NextRecord(f, m, p).1);
    }
  }

  /** `EstimateHeader` at a record read, from its value after the record. */
  lemma EstimateHeaderStep(o: ViewOptions, f: Format, m: Mode, p: ParserState, e: Estimate, seen: seq<TextRecord>,
                           rec: TextRecord, q: ParserState)
    requires |seen| < LinesForEstimation && NextRecord(f, m, p) == (Record(rec), q)
    requires var r := Grown(seen + [rec], EstimateFrom(o, f, m, q, Absorb(o, e, |seen|, rec), |seen + [rec]|)); HeaderFits(o, r.est.headerIdx, r.lines)
    ensures var r := Grown(seen, EstimateFrom(o, f, m, p, e, |seen|)); HeaderFits(o, r.est.headerIdx, r.lines)
  {
    EstimateAtSeen(o, f, m, p, e, seen, rec, q);
  }


  /**
   * What `WriteFile`'s first loop computes from a fresh viewer: at most `LinesForEstimation`
   * records are read (all of them unless the file ends first); the names and widths exist once a
   * data record was read; each width is the longest value of its column, at least `minWidth`,
   * capped at a positive `maxWidth`; there are as many as the widest record; the header is the
   * first data record when the viewer has one, and there is none otherwise.
   */
  lemma EstimateMeaning(o: ViewOptions, f: Format, m: Mode, p: ParserState)
    ensures var r := EstimateFrom(o, f, m, p, Estimate(None, None, -1), 0);
      |r.lines| <= LinesForEstimation && (!r.ended ==> |r.lines| == LinesForEstimation)
      && HeaderFits(o, r.est.headerIdx, r.lines) && NamesFit(r.est.names, r.lines)
      && WidthsFit(o, r.est.widths, r.lines)
  {
    var e := Estimate(None, None, -1);
    assert !HasData([]);
    EstimateLength(o, f, m, p, e, []);
    EstimateHeader(o, f, m, p, e, []);
    EstimateNames(o, f, m, p, e, []);
    EstimateWidths(o, f, m, p, e, []);
    GrownEmpty(EstimateFrom(o, f, m, p, e, 0));
  }

  // What is shown.

  /** No record of the first loop is wider than the widths, so it never panics. */
  lemma {:induction false} ShowLinesNoPanic(o: ViewOptions, ws: seq<int>, lines: seq<TextRecord>, h: int, k: nat)
    requires NonNeg(ws) && k <= |lines|
    requires forall q :: 0 <= q < |lines| && lines[q].values.Some? ==> |lines[q].values.value| <= |ws|
    ensures !ShowLines(o, ws, lines, h, k).1
    decreases |lines| - k
  {
    if k < |lines| {
      ShowLinesNoPanic(o, ws, lines, h, k + 1);
    }
  }

  /** Some row of `rows` has more than `n` values. */
  predicate Wider(rows: seq<seq<string>>, n: int)
  {
    exists k :: 0 <= k < |rows| && |rows[k]| > n
  }

  /** A row in front changes `Wider` only by itself. */
  lemma WiderCons(row: seq<string>, rows: seq<seq<string>>, n: int)
    ensures Wider([row] + rows, n) <==> |row| > n || Wider(rows, n)
  {
    var all := [row] + rows;
    if Wider(rows, n) {
      var k :| 0 <= k < |rows| && |rows[k]| > n;
      assert all[k + 1] == rows[k];
    }
    if Wider(all, n) && |row| <= n {
      var k :| 0 <= k < |all| && |all[k]| > n;
      assert k > 0 && rows[k - 1] == all[k];
    }
    if |row| > n {
      assert all[0] == row;
    }
  }

  /** The second loop panics exactly when a later data record is wider than the widths. */
  lemma {:induction false} StreamPanics(o: ViewOptions, ws: seq<int>, f: Format, m: Mode, p: ParserState)
    requires NonNeg(ws)
    ensures Stream(o, ws, f, m, p).1 <==> Wider(DataRows(f, m, p), |ws|)
    decreases |p.pending|
  {
    var n := NextRecord(f, m, p);
    if n.0.Record? {
      StreamPanics(o, ws, f, m, n.1);
      if n.0.rec.values.Some? {
        WiderCons(n.0.rec.values.value, DataRows(f, m, n.1), |ws|);
      }
    }
  }

  /**
   * A fresh viewer panics exactly when the file goes on past the estimation and a data record
   * after it is wider than every record the estimation read.
   */
  lemma ViewPanics(o: ViewOptions, f: Format, m: Mode, p: ParserState)
    ensures var r := EstimateFrom(o, f, m, p, Estimate(None, None, -1), 0);
      View(o, f, m, p, Estimate(None, None, -1)).panicked <==> !r.ended && Wider(DataRows(f, m, r.after), MaxColumns(r.lines))
  {
    var r := EstimateFrom(o, f, m, p, Estimate(None, None, -1), 0);
    EstimateMeaning(o, f, m, p);
    EstimateNonNeg(o, f, m, p, Estimate(None, None, -1), 0);
    var ws := WidthsOf(r.est);
    if !HasData(r.lines) {
      ColumnMaxNone(r.lines, 0);
    }
    assert |ws| == MaxColumns(r.lines);
    FirstWithin(r.lines);
    ShowLinesNoPanic(o, ws, r.lines, r.est.headerIdx, 0);
    StreamPanics(o, ws, f, m, r.after);
  }

  /** The sum of the widths of columns `i` to `n`. */
  function Span(ws: seq<int>, i: nat, n: nat): int
    requires n <= |ws|
    decreases n - i
  {
    if i >= n then 0 else ws[i] + Span(ws, i + 1, n)
  }

  /** Each cell takes its width plus one, and each separator two. */
  lemma {:induction false} CellsLength(ws: seq<int>, vs: seq<string>, i: nat)
    requires NonNeg(ws) && i <= |vs| <= |ws|
    ensures |CellsFrom(ws, vs, i).0| == Span(ws, i, |vs|) + 3 * (|vs| - i) - (if i == 0 && |vs| > 0 then 2 else 0)
    decreases |vs| - i
  {
    if i < |vs| {
      CellShape(ws[i], vs[i]);
      CellsLength(ws, vs, i + 1);
    }
  }

  /** Each run of dashes takes its width, and each `-+-` three. */
  lemma {:induction false} DashesLength(ws: seq<int>, i: nat, n: nat)
    requires NonNeg(ws) && i <= n <= |ws|
    ensures |Dashes(ws, i, n)| == Span(ws, i, n) + 3 * (n - i) - (if i == 0 && n > 0 then 3 else 0)
    decreases n - i
  {
    if i < n {
      DashesLength(ws, i + 1, n);
    }
  }

  /**
   * A header record that fits the widths shows as its line and then the underline. The line is as
   * long as the underline plus the `[n] ` that line numbers put before the cells, so without line
   * numbers the two are exactly as long.
   */
  lemma HeaderUnderlined(o: ViewOptions, ws: seq<int>, rec: TextRecord)
    requires NonNeg(ws) && rec.values.Some? && 0 < |rec.values.value| <= |ws|
    ensures var t, d := RowText(o, ws, rec, true), DashLine(ws, |rec.values.value|);
      && !t.1 && |d| <= |t.0| && t.0[|t.0| - |d|..] == d
      && |t.0| - |d| == |LineNumPrefix(o, rec)| + |d|
      && (!o.showLineNum ==> |t.0| == 2 * |d|)
  {
    var vs := rec.values.value;
    CellsLength(ws, vs, 0);
    DashesLength(ws, 0, |vs|);
    var c := CellsFrom(ws, vs, 0);
    var d := DashLine(ws, |vs|);
    var t := RowText(o, ws, rec, true).0;
    assert t == (LineNumPrefix(o, rec) + c.0 + "\n") + d;
  }

  // ---------------------------------------------------------------------------------------------
  // The viewer object

  /** The estimation with its records put after `lines`. */
  function Grown(lines: seq<TextRecord>, r: Estimation): Estimation
  {
    r.(lines := lines + r.lines)
  }

  /** `TextViewer`: the file it shows, its settings, and the column names and widths it keeps. */
  class TextViewer {
    const txt: DelimitedTextFile
    var showComments: bool
    var showLineNum: bool
    var hasHeader: bool
    var minWidth: int
    var maxWidth: int
    var colNames: Option<seq<string>>
    var colWidth: Option<seq<int>>

    /** The settings. */
    function Options(): ViewOptions
      reads this`showComments, this`showLineNum, this`hasHeader, this`minWidth, this`maxWidth
    {
      ViewOptions(showComments, showLineNum, hasHeader, minWidth, maxWidth)
    }

    /** The names and widths kept, with a header position. */
    function Est(headerIdx: int): Estimate
      reads this`colNames, this`colWidth
    {
      Estimate(colNames, colWidth, headerIdx)
    }

    /** The widths `writeLine` indexes (none yet reads as an empty slice). */
    function Widths(): seq<int>
      reads this`colNames, this`colWidth
    {
      WidthsOf(Est(-1))
    }

    /** `NewTextViewer`: no comments, no line numbers, a header, no width bounds, no names or widths yet. */
    constructor NewTextViewer(f: DelimitedTextFile)
      ensures txt == f
      ensures Options() == ViewOptions(false, false, true, 0, 0)
      ensures colNames.None? && colWidth.None?
    {
      txt := f;
      showComments := false;
      showLineNum := false;
      hasHeader := true;
      minWidth := 0;
      maxWidth := 0;
      colNames := None;
      colWidth := None;
    }

    /** `WithHasHeader`. */
    method WithHasHeader(b: bool)
      modifies this`hasHeader
      ensures hasHeader == b
    {
      hasHeader := b;
    }

    /** `WithShowLineNum`. */
    method WithShowLineNum(b: bool)
      modifies this`showLineNum
      ensures showLineNum == b
    {
      showLineNum := b;
    }

    /** `WithShowComments`. */
    method WithShowComments(b: bool)
      modifies this`showComments
      ensures showComments == b
    {
      showComments := b;
    }

    /** `WithMinWidth`. */
    method WithMinWidth(i: int)
      modifies this`minWidth
      ensures minWidth == i
    {
      minWidth := i;
    }

    /** `WithMaxWidth`. */
    method WithMaxWidth(i: int)
      modifies this`maxWidth
      ensures maxWidth == i
    {
      maxWidth := i;
    }

    /** The estimation's work on the `i`-th record read, a data record with values `vs`. */
    method AddRecord(i: int, rec: TextRecord, headerIdx: int) returns (h: int)
      modifies this`colNames, this`colWidth
      ensures Est(h) == Absorb(Options(), old(Est(headerIdx)), i, rec)
    {
      h := headerIdx;
      if rec.values.None? {
        return;
      }
      var vs := rec.values.value;
      var names := colNames;
      if names.None? {
        if hasHeader {
          h := i;
        }
        names := Some(vs);
      }
      var widths := colWidth;
      if widths.None? {
        widths := Some(Zeros(|vs|));
      }
      var base := Padded(widths.value, |vs|, 0);
      var ws := base;
      var j := 0;
      while j < |vs|
        invariant 0 <= j <= |vs| && |ws| == |base|
        invariant forall k :: 0 <= k < j ==> ws[k] == Widened(Options(), base[k], vs[k])
        invariant forall k :: j <= k < |ws| ==> ws[k] == base[k]
      {
        var w := MaxInt([minWidth, ws[j], |vs[j]|]);
        if maxWidth > 0 {
          w := MinInt([w, maxWidth]);
        }
        ws := ws[j := w];
        j := j + 1;
      }
      assert ws == Widen(Options(), base, vs);
      colNames := Some(Padded(names.value, |vs|, ""));
      colWidth := Some(ws);
    }

    /** `writeLine`: what a record shows with the kept widths, and whether it panics. */
    method WriteLine(rec: TextRecord, isHeader: bool) returns (s: string, panicked: bool)
      requires NonNeg(Widths())
      ensures s == RowText(Options(), Widths(), rec, isHeader).0
      ensures panicked == RowText(Options(), Widths(), rec, isHeader).1
    {
      if rec.values.None? {
        panicked := false;
        if !showComments {
          return [], false;
        }
        s := TrimSuffix(TrimSuffix(rec.rawString, "\n"), "\r") + "\n";
        return;
      }
      var ws := Widths();
      var vs := rec.values.value;
      var prefix: string := [];
      if showLineNum {
        prefix := "[" + DecimalString(rec.dataLineNum) + "] ";
      }
      var cells, pan := WriteCells(ws, vs);
      if pan {
        return prefix + cells, true;
      }
      s := prefix + cells + "\n";
      if isHeader {
        var dashes := WriteDashes(ws, |vs|);
        s := s + (dashes + "-\n");
      } else {
        assert s + [] == s;
      }
      panicked := false;
    }

    /** `WriteFile`'s first loop: reads up to `LinesForEstimation` records, growing the names and widths. */
    method EstimateWidths() returns (lines: seq<TextRecord>, headerIdx: int, ended: bool)
      modifies this`colNames, this`colWidth
      modifies txt`next, txt`hasNext, txt`rest, txt`curLineNum, txt`curDataLineNum, txt`Header, txt`lastComment,
               txt`rawHeaderLine
      ensures Estimation(Est(headerIdx), lines, txt.State(), ended)
              == EstimateFrom(Options(), txt.Fmt(), txt.Modes(), old(txt.State()), old(Est(-1)), 0)
      ensures txt.Modes() == old(txt.Modes())
    {
      ghost var o, m := Options(), txt.Modes();
      ghost var total := EstimateFrom(o, txt.Fmt(), m, txt.State(), Est(-1), 0);
      lines, headerIdx := [], -1;
      var i, done := 0, false;
      GrownEmpty(total);
      ended := false;
      while !done
        invariant Options() == o && txt.Modes() == m
        invariant !done ==> total == Grown(lines, EstimateFrom(Options(), txt.Fmt(), txt.Modes(), txt.State(), Est(headerIdx), i))
        invariant done ==> total == Estimation(Est(headerIdx), lines, txt.State(), ended)
        decreases !done, LinesForEstimation - i
      {
        done, lines, headerIdx, ended := EstimateRound(i, lines, headerIdx, total);
        i := i + 1;
      }
    }

    /**
     * One round of `EstimateWidths`' loop, `total` being the whole estimation: past the last round it
     * stops; otherwise it reads a record and absorbs it, and stops at the end of the file.
     */
    method EstimateRound(i: nat, lines: seq<TextRecord>, headerIdx: int, ghost total: Estimation)
      returns (done: bool, lines': seq<TextRecord>, headerIdx': int, ended: bool)
      requires total == Grown(lines, EstimateFrom(Options(), txt.Fmt(), txt.Modes(), txt.State(), Est(headerIdx), i))
      modifies this`colNames, this`colWidth
      modifies txt`next, txt`hasNext, txt`rest, txt`curLineNum, txt`curDataLineNum, txt`Header, txt`lastComment,
               txt`rawHeaderLine
      ensures !done ==> i < LinesForEstimation
      ensures Options() == old(Options()) && txt.Modes() == old(txt.Modes())
      ensures done ==> total == Estimation(Est(headerIdx'), lines', txt.State(), ended)
      ensures !done ==> total == Grown(lines', EstimateFrom(Options(), txt.Fmt(), txt.Modes(), txt.State(), Est(headerIdx'), i + 1))
    {
      if i >= LinesForEstimation {
        EstimateAtLimit(Options(), txt.Fmt(), txt.Modes(), txt.State(), Est(headerIdx), i, lines);
        return true, lines, headerIdx, false;
      }
      ghost var p := txt.State();
      var r := txt.ReadLine();
      if r.EndOfFile? {
        EstimateAtEnd(Options(), txt.Fmt(), txt.Modes(), p, Est(headerIdx), i, lines, txt.State());
        return true, lines, headerIdx, true;
      }
      var rec := r.rec;
      EstimateAtRecord(Options(), txt.Fmt(), txt.Modes(), p, Est(headerIdx), i, lines, rec, txt.State());
      headerIdx' := AddRecord(i, rec, headerIdx);
      return false, lines + [rec], headerIdx', false;
    }

    /** `WriteFile`'s second loop: shows the estimation's records, the header's with its dashes. */
    method ShowEstimated(lines: seq<TextRecord>, headerIdx: int) returns (out: string, panicked: bool)
      requires NonNeg(Widths())
      ensures out == ShowLines(Options(), Widths(), lines, headerIdx, 0).0
      ensures panicked == ShowLines(Options(), Widths(), lines, headerIdx, 0).1
    {
      ghost var o, ws := Options(), Widths();
      out := [];
      var k := 0;
      assert ShowLines(o, ws, lines, headerIdx, 0).0 == [] + ShowLines(o, ws, lines, headerIdx, 0).0;
      while k < |lines|
        invariant 0 <= k <= |lines|
        invariant ShowLines(o, ws, lines, headerIdx, 0).0 == out + ShowLines(o, ws, lines, headerIdx, k).0
        invariant ShowLines(o, ws, lines, headerIdx, 0).1 == ShowLines(o, ws, lines, headerIdx, k).1
      {
        var row, pan := WriteLine(lines[k], k == headerIdx);
        ShowUnfold(o, ws, lines, headerIdx, k, out);
        if pan {
          return out + row, true;
        }
        out := out + row;
        k := k + 1;
      }
      assert out + [] == out;
      panicked := false;
    }

    /** `WriteFile`'s last loop: shows the rest of the file, no record being the header. */
    method StreamRest() returns (out: string, panicked: bool)
      requires NonNeg(Widths())
      modifies txt`next, txt`hasNext, txt`rest, txt`curLineNum, txt`curDataLineNum, txt`Header, txt`lastComment,
               txt`rawHeaderLine
      ensures var r := Stream(Options(), Widths(), txt.Fmt(), txt.Modes(), old(txt.State()));
        out == r.0 && panicked == r.1 && txt.State() == r.2
      ensures txt.Modes() == old(txt.Modes())
    {
      ghost var m := txt.Modes();
      ghost var total := Stream(Options(), Widths(), txt.Fmt(), m, txt.State());
      out, panicked := [], false;
      LeadEmpty(total);
      var done := false;
      while !done
        invariant txt.Modes() == m
        invariant !done ==> !panicked && total == Lead(out, Stream(Options(), Widths(), txt.Fmt(), txt.Modes(), txt.State()))
        invariant done ==> total == (out, panicked, txt.State())
        decreases !done, |txt.State().pending|
      {
        done, out, panicked := StreamRound(out, total);
      }
    }

    /**
     * One round of `WriteFile`'s last loop, `total` being the whole stream: reads a record and shows
     * it; `done` at the end of the file or when the record panics.
     */
    method StreamRound(out: string, ghost total: (string, bool, ParserState))
      returns (done: bool, out': string, panicked: bool)
      requires NonNeg(Widths())
      requires total == Lead(out, Stream(Options(), Widths(), txt.Fmt(), txt.Modes(), txt.State()))
      modifies txt`next, txt`hasNext, txt`rest, txt`curLineNum, txt`curDataLineNum, txt`Header, txt`lastComment,
               txt`rawHeaderLine
      ensures txt.Modes() == old(txt.Modes()) && (!done ==> !panicked)
      ensures done ==> total == (out', panicked, txt.State())
      ensures !done ==> |txt.State().pending| < |old(txt.State()).pending|
      ensures !done ==> total == Lead(out', Stream(Options(), Widths(), txt.Fmt(), txt.Modes(), txt.State()))
    {
      ghost var p := txt.State();
      var r := txt.ReadLine();
      if r.EndOfFile? {
        StreamAtEnd(Options(), Widths(), txt.Fmt(), txt.Modes(), p, out, txt.State());
        done, out', panicked := true, out, false;
      } else {
        var row, pan := WriteLine(r.rec, false);
        if pan {
          StreamAtPanic(Options(), Widths(), txt.Fmt(), txt.Modes(), p, out, r.rec, txt.State());
        } else {
          StreamAtRow(Options(), Widths(), txt.Fmt(), txt.Modes(), p, out, r.rec, txt.State());
        }
        done, out', panicked := pan, out + row, pan;
      }
    }

    /**
     * `WriteFile`: estimates the widths from the first records, shows those records, then streams
     * the rest of the file unless it already ended; a record wider than the widths panics.
     */
    method WriteFile() returns (out: string, panicked: bool)
      requires NonNeg(Widths())
      modifies this`colNames, this`colWidth
      modifies txt`next, txt`hasNext, txt`rest, txt`curLineNum, txt`curDataLineNum, txt`Header, txt`lastComment,
               txt`rawHeaderLine
      ensures var v := View(Options(), txt.Fmt(), txt.Modes(), old(txt.State()), old(Est(-1)));
        out == v.out && panicked == v.panicked && colNames == v.est.names && colWidth == v.est.widths
        && txt.State() == v.after
    {
      ghost var o, f, m, p := Options(), txt.Fmt(), txt.Modes(), txt.State();
      EstimateNonNeg(o, f, m, p, Est(-1), 0);
      var lines, headerIdx, ended := EstimateWidths();
      ghost var r := Estimation(Est(headerIdx), lines, txt.State(), ended);
      assert r == EstimateFrom(o, f, m, p, old(Est(-1)), 0);
      out, panicked := ShowRest(lines, headerIdx, ended);
      assert ViewRun(out, panicked, Est(headerIdx), txt.State()) == Show(o, f, m, r);
    }

    /** `WriteFile` after the estimation: the estimated records, then the rest of the file unless it ended. */
    method ShowRest(lines: seq<TextRecord>, headerIdx: int, ended: bool) returns (out: string, panicked: bool)
      requires NonNeg(Widths())
      modifies txt`next, txt`hasNext, txt`rest, txt`curLineNum, txt`curDataLineNum, txt`Header, txt`lastComment,
               txt`rawHeaderLine
      ensures ViewRun(out, panicked, Est(headerIdx), txt.State())
              == Show(Options(), txt.Fmt(), old(txt.Modes()), Estimation(Est(headerIdx), lines, old(txt.State()), ended))
      ensures txt.Modes() == old(txt.Modes())
    {
      out, panicked := ShowEstimated(lines, headerIdx);
      if panicked || ended {
        return;
      }
      var more;
      more, panicked := StreamRest();
      out := out + more;
    }
  }

  /** The estimation loop at the end of the file, after the records `lines`. */
  lemma EstimateAtEnd(o: ViewOptions, f: Format, m: Mode, p: ParserState, e: Estimate, i: nat, lines: seq<TextRecord>,
                      q: ParserState)
    requires i < LinesForEstimation && NextRecord(f, m, p) == (EndOfFile, q)
    ensures Grown(lines, EstimateFrom(o, f, m, p, e, i)) == Estimation(e, lines, q, true)
  {
    assert lines + [] == lines;
  }

  /** Records `a`, then records `b`, before an estimation. */
  lemma GrownGrown(a: seq<TextRecord>, b: seq<TextRecord>, r: Estimation)
    ensures Grown(a, Grown(b, r)) == Grown(a + b, r)
  {
    assert a + (b + r.lines) == (a + b) + r.lines;
  }

  /** The estimation with no records before it. */
  lemma GrownEmpty(r: Estimation)
    ensures Grown([], r) == r
  {
    assert [] + r.lines == r.lines;
  }

  /** The estimation loop after its last round. */
  lemma EstimateAtLimit(o: ViewOptions, f: Format, m: Mode, p: ParserState, e: Estimate, i: nat, lines: seq<TextRecord>)
    requires i >= LinesForEstimation
    ensures Grown(lines, EstimateFrom(o, f, m, p, e, i)) == Estimation(e, lines, p, false)
  {
    assert lines + [] == lines;
  }

  /** One round of the estimation loop reading `rec`, after the records `lines`. */
  lemma EstimateAtRecord(o: ViewOptions, f: Format, m: Mode, p: ParserState, e: Estimate, i: nat,
                         lines: seq<TextRecord>, rec: TextRecord, q: ParserState)
    requires i < LinesForEstimation && NextRecord(f, m, p) == (Record(rec), q)
    ensures Grown(lines, EstimateFrom(o, f, m, p, e, i))
            == Grown(lines + [rec], EstimateFrom(o, f, m, q, Absorb(o, e, i, rec), i + 1))
  {
    var r := EstimateFrom(o, f, m, q, Absorb(o, e, i, rec), i + 1);
    GrownGrown(lines, [rec], r);
  }

  /** `EstimateAtRecord` with the records read so far counting the rounds. */
  lemma EstimateAtSeen(o: ViewOptions, f: Format, m: Mode, p: ParserState, e: Estimate, seen: seq<TextRecord>,
                       rec: TextRecord, q: ParserState)
    requires |seen| < LinesForEstimation && NextRecord(f, m, p) == (Record(rec), q)
    ensures Grown(seen, EstimateFrom(o, f, m, p, e, |seen|))
            == Grown(seen + [rec], EstimateFrom(o, f, m, q, Absorb(o, e, |seen|, rec), |seen + [rec]|))
  {
    assert |seen + [rec]| == |seen| + 1;
    EstimateAtRecord(o, f, m, p, e, |seen|, seen, rec, q);
  }

  /** One round of the second loop of `WriteFile`, after the text `out`. */
  lemma ShowUnfold(o: ViewOptions, ws: seq<int>, lines: seq<TextRecord>, h: int, k: nat, out: string)
    requires NonNeg(ws) && k < |lines|
    ensures var row := RowText(o, ws, lines[k], k == h);
      var here := ShowLines(o, ws, lines, h, k);
      if row.1 then out + here.0 == out + row.0 && here.1
      else
        var rest := ShowLines(o, ws, lines, h, k + 1);
        out + here.0 == (out + row.0) + rest.0 && here.1 == rest.1
  {
    var row := RowText(o, ws, lines[k], k == h);
    if !row.1 {
      var rest := ShowLines(o, ws, lines, h, k + 1);
      assert out + (row.0 + rest.0) == (out + row.0) + rest.0;
    }
  }

  /** The stream with the text `out` shown before it. */
  function Lead(out: string, r: (string, bool, ParserState)): (string, bool, ParserState)
  {
    (out + r.0, r.1, r.2)
  }

  /** A stream with nothing before it is itself. */
  lemma LeadEmpty(r: (string, bool, ParserState))
    ensures Lead([], r) == r
  {
    assert [] + r.0 == r.0;
  }

  /** The text `out`, then the text `s`, before a stream. */
  lemma LeadLead(out: string, s: string, r: (string, bool, ParserState))
    ensures Lead(out, Lead(s, r)) == Lead(out + s, r)
  {
    assert out + (s + r.0) == (out + s) + r.0;
  }

  /** The last loop of `WriteFile` at the end of the file, after the text `out`. */
  lemma StreamAtEnd(o: ViewOptions, ws: seq<int>, f: Format, m: Mode, p: ParserState, out: string, q: ParserState)
    requires NonNeg(ws) && NextRecord(f, m, p) == (EndOfFile, q)
    ensures Lead(out, Stream(o, ws, f, m, p)) == (out, false, q)
  {
    assert out + [] == out;
  }

  /** The last loop of `WriteFile` at a record that panics, after the text `out`. */
  lemma StreamAtPanic(o: ViewOptions, ws: seq<int>, f: Format, m: Mode, p: ParserState, out: string,
                      rec: TextRecord, q: ParserState)
    requires NonNeg(ws) && NextRecord(f, m, p) == (Record(rec), q) && RowText(o, ws, rec, false).1
    ensures Lead(out, Stream(o, ws, f, m, p)) == (out + RowText(o, ws, rec, false).0, true, q)
  {
  }

  /** The last loop of `WriteFile` at a record shown without panic, after the text `out`. */
  lemma StreamAtRow(o: ViewOptions, ws: seq<int>, f: Format, m: Mode, p: ParserState, out: string,
                    rec: TextRecord, q: ParserState)
    requires NonNeg(ws) && NextRecord(f, m, p) == (Record(rec), q) && !RowText(o, ws, rec, false).1
    ensures Lead(out, Stream(o, ws, f, m, p)) == Lead(out + RowText(o, ws, rec, false).0, Stream(o, ws, f, m, q))
  {
    LeadLead(out, RowText(o, ws, rec, false).0, Stream(o, ws, f, m, q));
  }

  /** One more dash. */
  lemma RepeatSnoc(d: nat)
    ensures Repeat('-', d) + "-" == Repeat('-', d + 1)
  {
    var a := Repeat('-', d) + "-";
    var b := Repeat('-', d + 1);
    assert |a| == |b|;
    assert forall q :: 0 <= q < |a| ==> a[q] == '-';
  }

  /** The cell loop of `writeLine`: the cells of `vs`, stopping with a panic at the first value beyond the widths. */
  method WriteCells(ws: seq<int>, vs: seq<string>) returns (cells: string, panicked: bool)
    requires NonNeg(ws)
    ensures cells == CellsFrom(ws, vs, 0).0 && panicked == CellsFrom(ws, vs, 0).1
  {
    cells := [];
    var i := 0;
    assert CellsFrom(ws, vs, 0).0 == [] + CellsFrom(ws, vs, 0).0;
    while i < |vs|
      invariant 0 <= i <= |vs|
      invariant CellsFrom(ws, vs, 0).0 == cells + CellsFrom(ws, vs, i).0
      invariant CellsFrom(ws, vs, 0).1 == CellsFrom(ws, vs, i).1
    {
      var sep: string := if i > 0 then "| " else [];
      CellsUnfold(ws, vs, cells, i, sep);
      if i >= |ws| {
        return cells + sep, true;
      }
      var w := ws[i];
      var cell := if |vs[i]| <= w then PadRight(vs[i], w) + " " else vs[i][..w] + "$";
      cells := cells + (sep + cell);
      i := i + 1;
    }
    assert cells + [] == cells;
    panicked := false;
  }

  /** One round of the cell loop after the text `cells`, with the separator `sep` it writes first. */
  lemma CellsUnfold(ws: seq<int>, vs: seq<string>, cells: string, i: nat, sep: string)
    requires NonNeg(ws) && i < |vs| && sep == if i > 0 then "| " else []
    ensures var here := CellsFrom(ws, vs, i);
      if i >= |ws| then cells + here.0 == cells + sep && here.1
      else
        var rest := CellsFrom(ws, vs, i + 1);
        cells + here.0 == (cells + (sep + Cell(ws[i], vs[i]))) + rest.0 && here.1 == rest.1
  {
    if i < |ws| {
      var rest := CellsFrom(ws, vs, i + 1);
      assert cells + (sep + Cell(ws[i], vs[i]) + rest.0) == (cells + (sep + Cell(ws[i], vs[i]))) + rest.0;
    }
  }

  /** The dash loop of `writeLine` under a header of `n` columns. */
  method WriteDashes(ws: seq<int>, n: nat) returns (dashes: string)
    requires NonNeg(ws) && n <= |ws|
    ensures dashes == Dashes(ws, 0, n)
  {
    dashes := [];
    var k := 0;
    assert Dashes(ws, 0, n) == [] + Dashes(ws, 0, n);
    while k < n
      invariant 0 <= k <= n
      invariant Dashes(ws, 0, n) == dashes + Dashes(ws, k, n)
    {
      var run: string := if k > 0 then "-+-" else [];
      var d := 0;
      while d < ws[k]
        invariant 0 <= d <= ws[k] && run == (if k > 0 then "-+-" else []) + Repeat('-', d)
      {
        RepeatSnoc(d);
        run := run + "-";
        d := d + 1;
      }
      DashesUnfold(ws, k, n, dashes);
      dashes := dashes + run;
      k := k + 1;
    }
    assert dashes + [] == dashes;
  }

  /** One round of the dash loop, after the text `dashes`. */
  lemma DashesUnfold(ws: seq<int>, k: nat, n: nat, dashes: string)
    requires NonNeg(ws) && k < n <= |ws|
    ensures dashes + Dashes(ws, k, n)
            == (dashes + ((if k > 0 then "-+-" else []) + Repeat('-', ws[k]))) + Dashes(ws, k + 1, n)
  {
    var run: string := (if k > 0 then "-+-" else []) + Repeat('-', ws[k]);
    assert Dashes(ws, k, n) == run + Dashes(ws, k + 1, n);
    assert dashes + (run + Dashes(ws, k + 1, n)) == (dashes + run) + Dashes(ws, k + 1, n);
  }

}
