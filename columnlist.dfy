/**
 * The `--cols` argument of the commands: `ParseColumnList` turns a comma-separated list such as
 * `1,"gene name",3-5` into column selectors (numbers are 1-based on input, 0-based in the
 * selector), and `MultiColumnVar.Set` accepts one such list per flag with an optional `:n`, `:r`,
 * `:rn` or `:nr` suffix marking the columns numeric and/or reversed.
 */
module ColumnList {
  import opened StringUtil
  import opened TextColumns

  /** The variables of the first loop of `ParseColumnList`. */
  datatype ListScan = ListScan(items: seq<string>, nums: seq<bool>, sb: string,
                               inQuote: bool, singleQuote: bool, isNumber: bool)

  const StartList := ListScan([], [], "", false, false, true)

  /** The runes that keep an unquoted item numeric. */
  const NumberRunes := "0123456789-"

  predicate NumericText(s: string)
  {
    forall i :: 0 <= i < |s| ==> s[i] in NumberRunes
  }

  /** One rune of the first loop. */
  function ListStep(st: ListScan, r: char): ListScan
  {
    if st.inQuote then
      if r == '"' && !st.singleQuote then st.(inQuote := false)
      else if r == '\'' && st.singleQuote then st.(inQuote := false)
      else st.(sb := st.sb + [r])
    else if r == '"' then st.(inQuote := true, isNumber := false, singleQuote := false)
    else if r == '\'' then st.(inQuote := true, isNumber := false, singleQuote := true)
    else if r == ',' then st.(items := st.items + [st.sb], nums := st.nums + [st.isNumber], sb := "", isNumber := true)
    else st.(isNumber := st.isNumber && r in NumberRunes, sb := st.sb + [r])
  }

  /** The first loop run over the rest of the input. */
  function ScanList(buf: string, st: ListScan): ListScan
    decreases |buf|
  {
    if buf == [] then st else ScanList(buf[1..], ListStep(st, buf[0]))
  }

  /** After the loop: the pending item is kept only when it is not empty. */
  function FinishList(st: ListScan): (seq<string>, seq<bool>)
  {
    if |st.sb| > 0 then (st.items + [st.sb], st.nums + [st.isNumber]) else (st.items, st.nums)
  }

  /** The items of a column list, each with whether it is to be read as a number or a range. */
  function ColumnItems(buf: string): (seq<string>, seq<bool>)
  {
    FinishList(ScanList(buf, StartList))
  }

  /** The first loop of `ParseColumnList`, which panics on a rune that does not decode. */
  method SplitColumnList(buf: string) returns (items: seq<string>, nums: seq<bool>)
    requires '\U{FFFD}' !in buf
    ensures (items, nums) == ColumnItems(buf)
  {
    var sb := "";
    items, nums := [], [];
    var inQuote, singleQuote, isNumber := false, false, true;
    var i := 0;
    while i < |buf|
      invariant 0 <= i <= |buf|
      invariant ScanList(buf[i..], ListScan(items, nums, sb, inQuote, singleQuote, isNumber)) == ScanList(buf, StartList)
    {
      var r := buf[i];
      assert buf[i..][1..] == buf[i + 1..];
      if inQuote {
        if r == '"' && !singleQuote {
          inQuote := false;
        } else if r == '\'' && singleQuote {
          inQuote := false;
        } else {
          sb := sb + [r];
        }
      } else if r == '"' {
        inQuote, isNumber, singleQuote := true, false, false;
      } else if r == '\'' {
        inQuote, isNumber, singleQuote := true, false, true;
      } else if r == ',' {
        items := items + [sb];
        nums := nums + [isNumber];
        sb := "";
        isNumber := true;
      } else {
        if r !in NumberRunes {
          isNumber := false;
        }
        sb := sb + [r];
      }
      i := i + 1;
    }
    if |sb| > 0 {
      items := items + [sb];
      nums := nums + [isNumber];
    }
  }

  /** `strings.IndexRune`: the first position of `c` in `s`, or -1. */
  function IndexRune(s: string, c: char): (r: int)
    ensures r == -1 <==> c !in s
    ensures r != -1 ==> 0 <= r < |s| && s[r] == c && c !in s[..r]
  {
    if s == [] then -1
    else if s[0] == c then 0
    else
      var r := IndexRune(s[1..], c);
      if r == -1 then -1
      else
        assert s[..r + 1] == [s[0]] + s[1..][..r];
        r + 1
  }

  /** The index columns for the 1-based range `lo-hi`, in order. */
  function IndexRange(lo: int, hi: int): seq<ColumnSpec>
    decreases hi - lo + 1
  {
    if hi < lo then [] else IndexRange(lo, hi - 1) + [ColumnSpec("", hi - 1, false, false)]
  }

  /**
   * The columns one item stands for: a name, a 1-based number, or a range `a-b` split at its
   * first `-`; a number `strconv.Atoi` rejects is the error, carrying the rejected text.
   */
  function ExpandItem(s: string, isNum: bool): Result<seq<ColumnSpec>>
  {
    if !isNum then Ok([ColumnSpec(s, -1, false, false)])
    else
      var d := IndexRune(s, '-');
      if d == -1 then
        match Atoi(s)
        case None => Err(s)
        case Some(v) => Ok([ColumnSpec("", v - 1, false, false)])
      else
        var one := s[..d];
        var two := s[d + 1..];
        match (Atoi(one), Atoi(two))
        case (None, _) => Err(one)
        case (_, None) => Err(two)
        case (Some(v1), Some(v2)) => Ok(IndexRange(v1, v2))
  }

  /** The columns of all the items in order, or the first item's error. */
  function ExpandAll(items: seq<string>, nums: seq<bool>): Result<seq<ColumnSpec>>
    requires |items| == |nums|
  {
    if items == [] then Ok([])
    else
      var n := |items| - 1;
      match ExpandAll(items[..n], nums[..n])
      case Err(e) => Err(e)
      case Ok(front) =>
        match ExpandItem(items[n], nums[n])
        case Err(e) => Err(e)
        case Ok(last) => Ok(front + last)
  }

  lemma ColumnItemsLengths(buf: string)
    ensures |ColumnItems(buf).0| == |ColumnItems(buf).1|
  {
    ScanListLengths(buf, StartList);
  }

  lemma {:induction false} ScanListLengths(buf: string, st: ListScan)
    requires |st.items| == |st.nums|
    ensures |ScanList(buf, st).items| == |ScanList(buf, st).nums|
    decreases |buf|
  {
    if buf != [] {
      ScanListLengths(buf[1..], ListStep(st, buf[0]));
    }
  }

  /** What `ParseColumnList` yields, on values. */
  function ParseSpec(buf: string): Result<seq<ColumnSpec>>
  {
    ColumnItemsLengths(buf);
    ExpandAll(ColumnItems(buf).0, ColumnItems(buf).1)
  }

  /**
   * `ParseColumnList`: splits the list and creates one new column object per selected column;
   * on a number that does not parse it returns no columns and the error.
   */
  method ParseColumnList(buf: string) returns (cols: seq<TextColumn>, err: Option<string>)
    requires '\U{FFFD}' !in buf
    ensures err.None? <==> ParseSpec(buf).Ok?
    ensures err.Some? ==> err == Some(ParseSpec(buf).error) && cols == []
    ensures err.None? ==> Specs(cols) == ParseSpec(buf).value
    ensures Distinct(cols) && forall c :: c in cols ==> fresh(c)
  {
    var items, nums := SplitColumnList(buf);
    ColumnItemsLengths(buf);
    cols := [];
    var i := 0;
    while i < |items|
      invariant 0 <= i <= |items|
      invariant ExpandAll(items[..i], nums[..i]) == Ok(Specs(cols))
      invariant Distinct(cols) && forall c :: c in cols ==> fresh(c)
    {
      ghost var before := Specs(cols);
      var more, e := AppendItem(cols, items[i], nums[i]);
      if e.Some? {
        ExpandFails(items, nums, i, e.value);
        return [], e;
      }
      cols := more;
      ExpandSucceeds(items, nums, i, before, Specs(cols));
      i := i + 1;
    }
    assert items[..i] == items && nums[..i] == nums;
    err := None;
  }

  /** The body of the second loop of `ParseColumnList`: the new columns of one item, after `cols`. */
  method AppendItem(cols: seq<TextColumn>, s: string, isNum: bool) returns (out: seq<TextColumn>, err: Option<string>)
    requires Distinct(cols)
    ensures err.None? <==> ExpandItem(s, isNum).Ok?
    ensures err.Some? ==> ExpandItem(s, isNum) == Err(err.value)
    ensures err.None? ==> Specs(out) == Specs(cols) + ExpandItem(s, isNum).value
    ensures Distinct(out) && forall c :: c in out ==> c in cols || fresh(c)
  {
    if isNum {
      var d := IndexRune(s, '-');
      if d == -1 {
        out, err := AppendNumber(cols, s);
      } else {
        out, err := AppendSpan(cols, s, d);
      }
    } else {
      out := AppendNamed(cols, s);
      err := None;
    }
  }

  /** A number item without `-`: one index column, or the text `Atoi` rejects. */
  method AppendNumber(cols: seq<TextColumn>, s: string) returns (out: seq<TextColumn>, err: Option<string>)
    requires Distinct(cols) && '-' !in s
    ensures err.None? <==> ExpandItem(s, true).Ok?
    ensures err.Some? ==> ExpandItem(s, true) == Err(err.value)
    ensures err.None? ==> Specs(out) == Specs(cols) + ExpandItem(s, true).value
    ensures Distinct(out) && forall c :: c in out ==> c in cols || fresh(c)
  {
    var val := Atoi(s);
    ExpandNumberValue(s);
    if val.None? {
      return cols, Some(s);
    }
    out := AppendIndex(cols, val.value - 1);
    err := None;
  }

  /** A range item split at its first `-`: the index columns of the range, or the side `Atoi` rejects. */
  method AppendSpan(cols: seq<TextColumn>, s: string, d: int) returns (out: seq<TextColumn>, err: Option<string>)
    requires Distinct(cols) && d == IndexRune(s, '-') && d != -1
    ensures err.None? <==> ExpandItem(s, true).Ok?
    ensures err.Some? ==> ExpandItem(s, true) == Err(err.value)
    ensures err.None? ==> Specs(out) == Specs(cols) + ExpandItem(s, true).value
    ensures Distinct(out) && forall c :: c in out ==> c in cols || fresh(c)
  {
    var one, two := s[..d], s[d + 1..];
    var val1, val2 := Atoi(one), Atoi(two);
    ExpandSpanValue(s, d);
    if val1.None? {
      return cols, Some(one);
    }
    if val2.None? {
      return cols, Some(two);
    }
    out := AppendRange(cols, val1.value, val2.value);
    err := None;
  }

  /** A number item's expansion, by whether it parses. */
  lemma ExpandNumberValue(s: string)
    requires '-' !in s
    ensures Atoi(s).None? ==> ExpandItem(s, true) == Err(s)
    ensures Atoi(s).Some? ==> ExpandItem(s, true) == Ok([ColumnSpec("", Atoi(s).value - 1, false, false)])
  {
  }

  /** A range item's expansion, by which side of the `-` parses. */
  lemma ExpandSpanValue(s: string, d: int)
    requires d == IndexRune(s, '-') && d != -1
    ensures Atoi(s[..d]).None? ==> ExpandItem(s, true) == Err(s[..d])
    ensures Atoi(s[..d]).Some? && Atoi(s[d + 1..]).None? ==> ExpandItem(s, true) == Err(s[d + 1..])
    ensures Atoi(s[..d]).Some? && Atoi(s[d + 1..]).Some? ==>
              ExpandItem(s, true) == Ok(IndexRange(Atoi(s[..d]).value, Atoi(s[d + 1..]).value))
  {
  }

  /** The inner loop over a range `lo-hi`: one new index column per number. */
  method AppendRange(cols: seq<TextColumn>, lo: int, hi: int) returns (out: seq<TextColumn>)
    requires Distinct(cols)
    ensures Specs(out) == Specs(cols) + IndexRange(lo, hi)
    ensures Distinct(out) && forall c :: c in out ==> c in cols || fresh(c)
  {
    ghost var base := Specs(cols);
    out := cols;
    var j := lo;
    while j <= hi
      invariant lo <= j && (j <= hi + 1 || j == lo)
      invariant Specs(out) == base + IndexRange(lo, j - 1)
      invariant Distinct(out) && forall c :: c in out ==> c in cols || fresh(c)
      decreases hi - j
    {
      out := AppendIndex(out, j - 1);
      IndexRangeSnoc(base, lo, j);
      j := j + 1;
    }
  }

  lemma IndexRangeSnoc(base: seq<ColumnSpec>, lo: int, j: int)
    requires lo <= j
    ensures base + IndexRange(lo, j) == (base + IndexRange(lo, j - 1)) + [ColumnSpec("", j - 1, false, false)]
  {
  }

  /** Appends one new index column. */
  method AppendIndex(cols: seq<TextColumn>, idx: int) returns (out: seq<TextColumn>)
    requires Distinct(cols)
    ensures Specs(out) == Specs(cols) + [ColumnSpec("", idx, false, false)]
    ensures Distinct(out) && forall c :: c in out ==> c in cols || fresh(c)
  {
    var c := new TextColumn.NewIndexColumn(idx);
    SpecsAppend(cols, c);
    DistinctAppend(cols, c);
    out := cols + [c];
  }

  /** Appends one new named column. */
  method AppendNamed(cols: seq<TextColumn>, name: string) returns (out: seq<TextColumn>)
    requires Distinct(cols)
    ensures Specs(out) == Specs(cols) + [ColumnSpec(name, -1, false, false)]
    ensures Distinct(out) && forall c :: c in out ==> c in cols || fresh(c)
  {
    var c := new TextColumn.NewNamedColumn(name);
    SpecsAppend(cols, c);
    DistinctAppend(cols, c);
    out := cols + [c];
  }

  lemma DistinctAppend(cols: seq<TextColumn>, c: TextColumn)
    requires Distinct(cols) && c !in cols
    ensures Distinct(cols + [c])
  {
    assert (cols + [c])[..|cols|] == cols;
  }

  /** The item where the expansion loop stops with an error. */
  lemma ExpandFails(items: seq<string>, nums: seq<bool>, i: nat, e: string)
    requires |items| == |nums| && i < |items|
    requires ExpandAll(items[..i], nums[..i]).Ok?
    requires ExpandItem(items[i], nums[i]) == Err(e)
    ensures ExpandAll(items, nums) == Err(e)
  {
    ExpandPrefixError(items, nums, i + 1, e);
    assert items[..|items|] == items && nums[..|nums|] == nums;
  }

  /** An error in a prefix is the error of every longer prefix. */
  lemma {:induction false} ExpandPrefixError(items: seq<string>, nums: seq<bool>, n: nat, e: string)
    requires |items| == |nums| && 0 < n <= |items|
    requires ExpandAll(items[..n - 1], nums[..n - 1]).Ok? && ExpandItem(items[n - 1], nums[n - 1]) == Err(e)
    ensures forall m :: n <= m <= |items| ==> ExpandAll(items[..m], nums[..m]) == Err(e)
  {
    forall m | n <= m <= |items|
      ensures ExpandAll(items[..m], nums[..m]) == Err(e)
    {
      ExpandPrefixErrorAt(items, nums, n, m, e);
    }
  }

  lemma {:induction false} ExpandPrefixErrorAt(items: seq<string>, nums: seq<bool>, n: nat, m: nat, e: string)
    requires |items| == |nums| && 0 < n <= m <= |items|
    requires ExpandAll(items[..n - 1], nums[..n - 1]).Ok? && ExpandItem(items[n - 1], nums[n - 1]) == Err(e)
    ensures ExpandAll(items[..m], nums[..m]) == Err(e)
    decreases m
  {
    assert items[..m][..m - 1] == items[..m - 1] && nums[..m][..m - 1] == nums[..m - 1];
    assert items[..m][m - 1] == items[m - 1] && nums[..m][m - 1] == nums[m - 1];
    if m > n {
      ExpandPrefixErrorAt(items, nums, n, m - 1, e);
      ExpandErrKept(items[..m], nums[..m]);
    } else {
      ExpandErrLast(items[..m], nums[..m]);
    }
  }

  /** An error in the expansion of the front items is the expansion's error. */
  lemma ExpandErrKept(items: seq<string>, nums: seq<bool>)
    requires |items| == |nums| > 0 && ExpandAll(items[..|items| - 1], nums[..|nums| - 1]).Err?
    ensures ExpandAll(items, nums) == ExpandAll(items[..|items| - 1], nums[..|nums| - 1])
  {
  }

  /** An error at the last item, the front ones expanded, is the expansion's error. */
  lemma ExpandErrLast(items: seq<string>, nums: seq<bool>)
    requires |items| == |nums| > 0 && ExpandAll(items[..|items| - 1], nums[..|nums| - 1]).Ok?
    requires ExpandItem(items[|items| - 1], nums[|nums| - 1]).Err?
    ensures ExpandAll(items, nums) == ExpandItem(items[|items| - 1], nums[|nums| - 1])
  {
  }

  /** One successful item of the expansion loop. */
  lemma ExpandSucceeds(items: seq<string>, nums: seq<bool>, i: nat, before: seq<ColumnSpec>, after: seq<ColumnSpec>)
    requires |items| == |nums| && i < |items|
    requires ExpandAll(items[..i], nums[..i]) == Ok(before)
    requires ExpandItem(items[i], nums[i]).Ok? && after == before + ExpandItem(items[i], nums[i]).value
    ensures ExpandAll(items[..i + 1], nums[..i + 1]) == Ok(after)
  {
    assert items[..i + 1][..i] == items[..i] && nums[..i + 1][..i] == nums[..i];
  }

  /** `strings.Split(s, ",")`: the texts between the commas (always at least one). */
  function CommaFields(s: string): (r: seq<string>)
    ensures |r| >= 1
  {
    if s == [] then [""]
    else
      var rest := CommaFields(s[1..]);
      if s[0] == ',' then [""] + rest else [[s[0]] + rest[0]] + rest[1..]
  }

  /** Whether each of the texts is numeric. */
  function NumericFlags(items: seq<string>): (r: seq<bool>)
    ensures |r| == |items|
  {
    seq(|items|, i requires 0 <= i < |items| => NumericText(items[i]))
  }

  lemma NumericTextCons(c: char, s: string)
    ensures NumericText([c] + s) == (c in NumberRunes && NumericText(s))
  {
    var t := [c] + s;
    assert t[0] == c;
    assert forall i :: 0 <= i < |s| ==> t[i + 1] == s[i];
    if NumericText(t) {
      assert forall i :: 0 <= i < |s| ==> s[i] in NumberRunes by {
        forall i | 0 <= i < |s| ensures s[i] in NumberRunes {
          assert t[i + 1] in NumberRunes;
        }
      }
    }
  }

  /**
   * What the first loop leaves after text whose comma-separated fields are `f`, started from `st`
   * outside quotes: the pending item grows by the first field, each later field but the last
   * becomes an item, and the last one is left pending.
   */
  predicate PlainScanned(f: seq<string>, st: ListScan, r: ListScan)
    requires |f| >= 1
  {
    && !r.inQuote && r.singleQuote == st.singleQuote
    && (|f| == 1 ==>
          r.items == st.items && r.nums == st.nums && r.sb == st.sb + f[0]
          && r.isNumber == (st.isNumber && NumericText(f[0])))
    && (|f| > 1 ==>
          && r.items == st.items + [st.sb + f[0]] + f[1..|f| - 1]
          && r.nums == st.nums + [st.isNumber && NumericText(f[0])] + NumericFlags(f[1..|f| - 1])
          && r.sb == f[|f| - 1] && r.isNumber == NumericText(f[|f| - 1]))
  }

  /** Outside quotes and over text without quote runes, the first loop cuts at every comma. */
  lemma {:induction false} ScanPlain(buf: string, st: ListScan)
    requires !st.inQuote && '"' !in buf && '\'' !in buf
    ensures PlainScanned(CommaFields(buf), st, ScanList(buf, st))
    decreases |buf|
  {
    if buf == [] {
      assert st.sb + CommaFields(buf)[0] == st.sb;
    } else {
      var c := buf[0];
      assert c != '"' && c != '\'' by {
        assert c in buf;
      }
      assert '"' !in buf[1..] && '\'' !in buf[1..] by {
        assert forall x :: x in buf[1..] ==> x in buf;
      }
      ScanPlain(buf[1..], ListStep(st, c));
      if c == ',' {
        ScanComma(CommaFields(buf[1..]), st, ScanList(buf, st));
      } else {
        ScanOther(c, CommaFields(buf[1..]), st, ScanList(buf, st));
      }
    }
  }

  lemma ScanComma(g: seq<string>, st: ListScan, r: ListScan)
    requires |g| >= 1 && !st.inQuote
    requires PlainScanned(g, ListStep(st, ','), r)
    ensures PlainScanned([""] + g, st, r)
  {
    var st' := ListStep(st, ',');
    assert st' == st.(items := st.items + [st.sb], nums := st.nums + [st.isNumber], sb := "", isNumber := true);
    assert NumericText("");
    assert st.sb + "" == st.sb;
    if |g| > 1 {
      ScanCommaMore(g, st, st', r);
    } else {
      ScanCommaLast(g, st, st', r);
    }
  }

  /** `ScanComma` when the comma is followed by the last field only. */
  lemma ScanCommaLast(g: seq<string>, st: ListScan, st': ListScan, r: ListScan)
    requires |g| == 1 && st.sb + "" == st.sb && NumericText("")
    requires st' == st.(items := st.items + [st.sb], nums := st.nums + [st.isNumber], sb := "", isNumber := true)
    requires PlainScanned(g, st', r)
    ensures PlainScanned([""] + g, st, r)
  {
    var f := [""] + g;
    assert f[1..|f| - 1] == [];
  }

  /** `ScanComma` when more than one field follows the comma. */
  lemma ScanCommaMore(g: seq<string>, st: ListScan, st': ListScan, r: ListScan)
    requires |g| > 1 && st.sb + "" == st.sb && NumericText("")
    requires st' == st.(items := st.items + [st.sb], nums := st.nums + [st.isNumber], sb := "", isNumber := true)
    requires PlainScanned(g, st', r)
    ensures PlainScanned([""] + g, st, r)
  {
    var f := [""] + g;
    assert f[1..|f| - 1] == [g[0]] + g[1..|g| - 1];
    assert st'.sb + g[0] == g[0];
    assert NumericFlags(f[1..|f| - 1]) == [NumericText(g[0])] + NumericFlags(g[1..|g| - 1]);
  }

  lemma ScanOther(c: char, g: seq<string>, st: ListScan, r: ListScan)
    requires |g| >= 1 && !st.inQuote && c != ',' && c != '"' && c != '\''
    requires PlainScanned(g, ListStep(st, c), r)
    ensures PlainScanned([[c] + g[0]] + g[1..], st, r)
  {
    var f := [[c] + g[0]] + g[1..];
    var st' := ListStep(st, c);
    assert st' == st.(isNumber := st.isNumber && c in NumberRunes, sb := st.sb + [c]);
    NumericTextCons(c, g[0]);
    assert st.sb + [c] + g[0] == st.sb + f[0];
    if |g| > 1 {
      assert f[1..|f| - 1] == g[1..|g| - 1];
    }
  }

  /**
   * A column list without quote runes: its items are the comma-separated fields with an empty last
   * field dropped, and an item is read as a number or range exactly when it has only digits and `-`.
   */
  lemma UnquotedList(buf: string)
    requires '"' !in buf && '\'' !in buf
    ensures var f := CommaFields(buf);
      && ColumnItems(buf).0 == (if f[|f| - 1] == "" then f[..|f| - 1] else f)
      && ColumnItems(buf).1 == NumericFlags(ColumnItems(buf).0)
  {
    ScanPlain(buf, StartList);
    FinishPlain(CommaFields(buf), ScanList(buf, StartList));
  }

  lemma FinishPlain(f: seq<string>, r: ListScan)
    requires |f| >= 1 && PlainScanned(f, StartList, r)
    ensures FinishList(r).0 == (if f[|f| - 1] == "" then f[..|f| - 1] else f)
    ensures FinishList(r).1 == NumericFlags(FinishList(r).0)
  {
    var n := |f| - 1;
    if n == 0 {
      assert r.items == [] && r.sb == f[0] && r.isNumber == NumericText(f[0]);
      assert NumericFlags(f) == [NumericText(f[0])];
    } else {
      assert StartList.sb + f[0] == f[0];
      assert r.items == f[..n] by {
        assert [] + [StartList.sb + f[0]] + f[1..n] == f[..n];
      }
      assert r.nums == NumericFlags(f[..n]) by {
        NumericFlagsAppend([f[0]], f[1..n]);
        assert [f[0]] + f[1..n] == f[..n];
      }
      NumericFlagsAppend(f[..n], [f[n]]);
      assert f[..n] + [f[n]] == f;
    }
  }

  lemma NumericFlagsAppend(a: seq<string>, b: seq<string>)
    ensures NumericFlags(a + b) == NumericFlags(a) + NumericFlags(b)
  {
    assert forall i :: 0 <= i < |a| ==> (a + b)[i] == a[i];
    assert forall i :: |a| <= i < |a| + |b| ==> (a + b)[i] == b[i - |a|];
  }

  /**
   * A quoted name is one named item, quotes removed, with nothing read as a number; the quotes
   * themselves may be double or single, and an empty quoted name yields no item at all.
   */
  lemma QuotedName(q: char, name: string)
    requires q == '"' || q == '\''
    requires q !in name
    ensures ColumnItems([q] + name + [q]) == if name == [] then ([], []) else ([name], [false])
  {
    var buf := [q] + name + [q];
    var st := ListStep(StartList, q);
    assert buf[0] == q && buf[1..] == name + [q];
    assert ScanList(buf, StartList) == ScanList(name + [q], st);
    assert st.inQuote && !st.isNumber && st.items == [] && st.sb == "";
    QuotedTail(q, name, st);
    var r := ScanList(buf, StartList);
    assert r.sb == name && r.items == [] && r.nums == [] && !r.isNumber;
    assert ColumnItems(buf) == FinishList(r);
    if name != [] {
      assert FinishList(r) == ([] + [name], [] + [false]);
      var items: seq<string> := [];
      var nums: seq<bool> := [];
      assert items + [name] == [name] && nums + [false] == [false];
      assert ColumnItems(buf) == ([name], [false]);
    }
  }

  lemma {:induction false} QuotedTail(q: char, name: string, st: ListScan)
    requires q == '"' || q == '\''
    requires q !in name && st.inQuote && st.singleQuote == (q == '\'')
    ensures ScanList(name + [q], st) == st.(sb := st.sb + name, inQuote := false)
    decreases |name|
  {
    if name == [] {
      assert name + [q] == [q];
    } else {
      assert (name + [q])[1..] == name[1..] + [q];
      assert q !in name[1..] by {
        assert forall x :: x in name[1..] ==> x in name;
      }
      QuotedTail(q, name[1..], ListStep(st, name[0]));
      assert st.sb + [name[0]] + name[1..] == st.sb + name;
    }
  }

  /** The range `lo-hi` selects the 0-based columns `lo - 1` to `hi - 1`, each once, in order. */
  lemma {:induction false} IndexRangeContents(lo: int, hi: int)
    ensures |IndexRange(lo, hi)| == if hi < lo then 0 else hi - lo + 1
    ensures forall k :: 0 <= k < |IndexRange(lo, hi)| ==> IndexRange(lo, hi)[k] == ColumnSpec("", lo - 1 + k, false, false)
    decreases hi - lo + 1
  {
    if hi >= lo {
      IndexRangeContents(lo, hi - 1);
    }
  }

  /**
   * The items `strconv.Atoi` rejects: an empty numeric item (from a list such as `1,,2`), a range
   * with nothing before its `-` (so a negative number such as `-3`), and a range whose second part
   * has another `-` after its first rune (such as `1-2-3`).
   */
  lemma ExpandItemErrors(s: string)
    ensures s == "" ==> ExpandItem(s, true) == Err("")
    ensures |s| > 0 && s[0] == '-' ==> ExpandItem(s, true) == Err("")
    ensures (exists i, j :: 0 <= i && i + 1 < j < |s| && s[i] == '-' && s[j] == '-')
              ==> ExpandItem(s, true).Err?
  {
    if exists i, j :: 0 <= i && i + 1 < j < |s| && s[i] == '-' && s[j] == '-' {
      var i, j :| 0 <= i && i + 1 < j < |s| && s[i] == '-' && s[j] == '-';
      var d := IndexRune(s, '-');
      assert d <= i;
      var one, two := s[..d], s[d + 1..];
      assert two[j - d - 1] == '-' && j - d - 1 >= 1;
      AtoiRejectsInnerSign(two, j - d - 1);
    }
  }

  lemma AtoiRejectsInnerSign(s: string, k: nat)
    requires 1 <= k < |s| && !IsDigit(s[k])
    ensures Atoi(s) == None
  {
  }

  /** A 1-based column number, as `%d` writes it, selects the 0-based index one lower. */
  lemma NumberRoundTrip(n: nat)
    requires n <= MaxInt64
    ensures ParseSpec(NatString(n)) == Ok([ColumnSpec("", n - 1, false, false)])
  {
    var s := NatString(n);
    NatStringDigits(n);
    DigitsOnlyItem(s);
    SingleItem(s);
    NumberItem(n);
  }

  lemma NumberItem(n: nat)
    requires n <= MaxInt64
    ensures ExpandItem(NatString(n), true) == Ok([ColumnSpec("", n - 1, false, false)])
  {
    var s := NatString(n);
    NatStringDigits(n);
    AtoiDecimalString(n);
    assert DecimalString(n) == s;
    assert '-' !in s by {
      forall i | 0 <= i < |s| ensures s[i] != '-' {
        assert IsDigit(s[i]);
      }
    }
  }

  /** A list that is one numeric item means what that item means. */
  lemma SingleItem(s: string)
    requires ColumnItems(s) == ([s], [true])
    ensures ParseSpec(s) == ExpandItem(s, true)
  {
    var items, nums := [s], [true];
    assert items[..0] == [] && nums[..0] == [];
    assert ExpandAll(items[..0], nums[..0]) == Ok([]);
    assert ParseSpec(s) == ExpandAll(items, nums);
    match ExpandItem(s, true)
    case Err(e) =>
    case Ok(v) =>
      assert ExpandAll(items, nums) == Ok([] + v);
      assert [] + v == v;
  }

  /** A range `a-b` written with `%d` selects the 0-based indices `a - 1` to `b - 1`. */
  lemma RangeRoundTrip(a: nat, b: nat)
    requires a <= MaxInt64 && b <= MaxInt64
    ensures ParseSpec(NatString(a) + "-" + NatString(b)) == Ok(IndexRange(a, b))
  {
    var s := NatString(a) + "-" + NatString(b);
    RangeText(a, b);
    NumericSingleItem(s);
    SingleItem(s);
    RangeItem(a, b);
  }

  lemma RangeText(a: nat, b: nat)
    ensures var s := NatString(a) + "-" + NatString(b); |s| > 0 && NumericText(s)
  {
    var s := NatString(a) + "-" + NatString(b);
    NatStringDigits(a);
    NatStringDigits(b);
    forall i | 0 <= i < |s| ensures s[i] in NumberRunes {
      if i < |NatString(a)| {
        assert s[i] == NatString(a)[i] && IsDigit(s[i]);
      } else if i > |NatString(a)| {
        assert s[i] == NatString(b)[i - |NatString(a)| - 1] && IsDigit(s[i]);
      }
    }
  }

  lemma RangeItem(a: nat, b: nat)
    requires a <= MaxInt64 && b <= MaxInt64
    ensures ExpandItem(NatString(a) + "-" + NatString(b), true) == Ok(IndexRange(a, b))
  {
    var s := NatString(a) + "-" + NatString(b);
    var sa := NatString(a);
    NatStringDigits(a);
    var d := IndexRune(s, '-');
    assert s[|sa|] == '-';
    assert forall i :: 0 <= i < |sa| ==> s[i] == sa[i] && IsDigit(s[i]);
    assert d == |sa|;
    assert s[..d] == sa && s[d + 1..] == NatString(b);
    AtoiDecimalString(a);
    AtoiDecimalString(b);
    assert DecimalString(a) == sa && DecimalString(b) == NatString(b);
  }

  lemma DigitsOnlyItem(s: string)
    requires |s| > 0 && AllDigits(s)
    ensures ColumnItems(s) == ([s], [true])
  {
    assert NumericText(s) by {
      forall i | 0 <= i < |s| ensures s[i] in NumberRunes {
        assert IsDigit(s[i]);
      }
    }
    NumericSingleItem(s);
  }

  /** A non-empty item of digits and `-` only is one item, read as a number or range. */
  lemma NumericSingleItem(s: string)
    requires |s| > 0 && NumericText(s)
    ensures ColumnItems(s) == ([s], [true])
  {
    assert '"' !in s && '\'' !in s && ',' !in s by {
      forall x | x in s ensures x in NumberRunes { }
    }
    NoCommaField(s);
    UnquotedList(s);
    assert NumericFlags([s]) == [true];
  }

  lemma {:induction false} NoCommaField(s: string)
    requires ',' !in s
    ensures CommaFields(s) == [s]
    decreases |s|
  {
    if s != [] {
      assert ',' !in s[1..] by {
        assert forall x :: x in s[1..] ==> x in s;
      }
      NoCommaField(s[1..]);
      assert [s[0]] + s[1..] == s;
    }
  }

  /**
   * The suffix `MultiColumnVar.Set` recognises, checked in this order: `:n`, `:r`, then `:rn` or
   * `:nr`, each only when something is left before it. Gives the list text and whether its columns
   * are to be numeric and whether reversed.
   */
  function SplitSuffix(s: string): (string, bool, bool)
  {
    if |s| > 2 && s[|s| - 2..] == ":n" then (s[..|s| - 2], true, false)
    else if |s| > 2 && s[|s| - 2..] == ":r" then (s[..|s| - 2], false, true)
    else if |s| > 3 && (s[|s| - 3..] == ":rn" || s[|s| - 3..] == ":nr") then (s[..|s| - 3], true, true)
    else (s, false, false)
  }

  /** The suffix a user writes for the given flags. */
  function FlagSuffix(num: bool, rev: bool): string
  {
    if num && rev then ":rn" else if num then ":n" else if rev then ":r" else ""
  }

  /** A non-empty list followed by the suffix for some flags is read back as that list and those flags. */
  lemma SuffixRoundTrip(body: string, num: bool, rev: bool)
    requires body != [] && (num || rev)
    ensures SplitSuffix(body + FlagSuffix(num, rev)) == (body, num, rev)
    ensures num && rev ==> SplitSuffix(body + ":nr") == (body, true, true)
  {
    var s := body + FlagSuffix(num, rev);
    var n := |body|;
    assert s[..n] == body;
    if num && rev {
      assert s[|s| - 2..] == "rn" && s[|s| - 3..] == ":rn";
      var t := body + ":nr";
      assert t[..n] == body && t[|t| - 2..] == "nr" && t[|t| - 3..] == ":nr";
    } else if num {
      assert s[|s| - 2..] == ":n";
    } else {
      assert s[|s| - 2..] == ":r";
    }
  }

  /** A list that does not end in `n` or `r` carries no flags. */
  lemma NoSuffix(s: string)
    requires s == [] || (s[|s| - 1] != 'n' && s[|s| - 1] != 'r')
    ensures SplitSuffix(s) == (s, false, false)
  {
  }

  /** A column value with the flags set that the suffix asked for. */
  function Marked(c: ColumnSpec, num: bool, rev: bool): ColumnSpec
  {
    var c1 := if rev then WithReverse(c) else c;
    if num then WithNumber(c1) else c1
  }

  function MarkAll(cs: seq<ColumnSpec>, num: bool, rev: bool): (r: seq<ColumnSpec>)
    ensures |r| == |cs|
  {
    seq(|cs|, i requires 0 <= i < |cs| => Marked(cs[i], num, rev))
  }

  /** The columns `Set` creates: the list before the suffix, parsed, then flagged as the suffix asks. */
  method ParseFlagged(s: string) returns (newcols: seq<TextColumn>, err: Option<string>)
    requires '\U{FFFD}' !in s
    ensures err.None? <==> ParseSpec(SplitSuffix(s).0).Ok?
    ensures err.Some? ==> err.value == ParseSpec(SplitSuffix(s).0).error
    ensures err.None? ==> Specs(newcols) == MarkAll(ParseSpec(SplitSuffix(s).0).value, SplitSuffix(s).1, SplitSuffix(s).2)
    ensures Distinct(newcols) && forall c :: c in newcols ==> fresh(c)
  {
    var list, num, rev := s, false, false;
    if |s| > 2 && s[|s| - 2..] == ":n" {
      list, num := s[..|s| - 2], true;
    } else if |s| > 2 && s[|s| - 2..] == ":r" {
      list, rev := s[..|s| - 2], true;
    } else if |s| > 3 && (s[|s| - 3..] == ":rn" || s[|s| - 3..] == ":nr") {
      list, num, rev := s[..|s| - 3], true, true;
    }
    assert (list, num, rev) == SplitSuffix(s);
    assert '\U{FFFD}' !in list by {
      assert list == s[..|list|];
    }
    newcols, err := ParseColumnList(list);
    if err.Some? {
      return;
    }
    MarkColumns(newcols, num, rev);
  }

  /** The loops of `Set` over the new columns: `AsReverse` and/or `AsNumber` on each. */
  method MarkColumns(cols: seq<TextColumn>, num: bool, rev: bool)
    requires Distinct(cols)
    modifies set c | c in cols
    ensures Specs(cols) == MarkAll(old(Specs(cols)), num, rev)
  {
    DistinctPairwise(cols);
    SpecsPointwise(cols);
    ghost var keys := Specs(cols);
    var i := 0;
    while i < |cols|
      invariant 0 <= i <= |cols|
      invariant forall j :: 0 <= j < i ==> cols[j].Spec() == Marked(keys[j], num, rev)
      invariant forall j :: i <= j < |cols| ==> cols[j].Spec() == keys[j]
    {
      var v := cols[i];
      if rev {
        v := v.AsReverse();
      }
      if num {
        v := v.AsNumber();
      }
      i := i + 1;
    }
    SpecsPointwise(cols);
  }

  /** `MultiColumnVar`: the columns given so far, one `--cols`-style flag value at a time. */
  class MultiColumnVar {
    var Values: seq<TextColumn>

    constructor ()
      ensures Values == []
    {
      Values := [];
    }

    /**
     * `Set`: parses the value (without its suffix) and appends the new columns, flagged as the
     * suffix asks; on a parse error nothing is appended.
     */
    method Set(s: string) returns (err: Option<string>)
      requires '\U{FFFD}' !in s
      modifies this
      ensures ParseSpec(SplitSuffix(s).0).Err? ==>
        err == Some(ParseSpec(SplitSuffix(s).0).error) && Values == old(Values)
      ensures ParseSpec(SplitSuffix(s).0).Ok? ==>
        && err == None
        && |Values| >= |old(Values)| && Values[..|old(Values)|] == old(Values)
        && Specs(Values[|old(Values)|..]) == MarkAll(ParseSpec(SplitSuffix(s).0).value, SplitSuffix(s).1, SplitSuffix(s).2)
        && Distinct(Values[|old(Values)|..])
        && forall c :: c in Values[|old(Values)|..] ==> fresh(c)
    {
      var newcols;
      newcols, err := ParseFlagged(s);
      if err.Some? {
        return;
      }
      var before := Values;
      Values := Values + newcols;
      assert Values[|before|..] == newcols;
    }
  }
}
