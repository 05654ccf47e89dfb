/**
 * `textfile.TextColumn`: a column selector. A named column starts with index -1 and is resolved
 * against the file's header before first use; an index column carries its 0-based index.
 */
module TextColumns {
  import opened StringUtil

  /** The value a `TextColumn` holds. */
  datatype ColumnSpec = ColumnSpec(name: string, idx: int, isNum: bool, isReverse: bool)

  /** The value `AsNumber` leaves behind. */
  function WithNumber(c: ColumnSpec): ColumnSpec { c.(isNum := true) }

  /** The value `AsReverse` leaves behind. */
  function WithReverse(c: ColumnSpec): ColumnSpec { c.(isReverse := true) }

  /** Setting either flag twice changes nothing, and the two setters may run in either order. */
  lemma SettersIdempotentAndCommute(c: ColumnSpec)
    ensures WithNumber(WithNumber(c)) == WithNumber(c)
    ensures WithReverse(WithReverse(c)) == WithReverse(c)
    ensures WithNumber(WithReverse(c)) == WithReverse(WithNumber(c))
  {
  }

  /** The text `String` gives: the name (or `idx:<idx>`), followed by `,n` for a numeric column. */
  function ColumnString(c: ColumnSpec): (s: string)
    ensures c.idx != -1 ==> |s| >= 5 && s[..4] == "idx:"
    ensures c.isNum ==> |s| >= 2 && s[|s| - 2..] == ",n"
  {
    var suffix := if c.isNum then ",n" else "";
    if c.idx == -1 then c.name + suffix
    else
      NatStringDigits(if c.idx < 0 then -c.idx else c.idx);
      "idx:" + DecimalString(c.idx) + suffix
  }

  /** For an index column the text after `idx:` reads back (with `strconv.Atoi`) as the index. */
  lemma IndexStringRoundTrip(c: ColumnSpec)
    requires c.idx != -1 && MinInt64 <= c.idx <= MaxInt64
    ensures var s := ColumnString(c);
      var end := if c.isNum then |s| - 2 else |s|;
      4 <= end && Atoi(s[4..end]) == Some(c.idx)
  {
    var s := ColumnString(c);
    var digits := DecimalString(c.idx);
    assert s == "idx:" + digits + (if c.isNum then ",n" else "");
    var end := if c.isNum then |s| - 2 else |s|;
    assert s[4..end] == digits;
    AtoiDecimalString(c.idx);
  }

  /** The first position of `name` in `header`, or -1: the lookup `populateColIndex` does. */
  function FindIndex(header: seq<string>, name: string): (r: int)
    ensures r == -1 <==> name !in header
    ensures r != -1 ==> 0 <= r < |header| && header[r] == name
    ensures r != -1 ==> forall j :: 0 <= j < r ==> header[j] != name
  {
    if header == [] then -1
    else if header[0] == name then 0
    else
      var r := FindIndex(header[1..], name);
      if r == -1 then -1 else r + 1
  }

  /**
   * `populateColIndex` on values: each column whose index is -1 takes the first header position
   * with its name; the first one whose name is missing stops the pass with that name as error.
   */
  function ResolveSpecs(keys: seq<ColumnSpec>, header: seq<string>): (r: (seq<ColumnSpec>, Option<string>))
    ensures |r.0| == |keys|
    decreases |keys|
  {
    if keys == [] then ([], None)
    else
      var k := keys[0];
      var i := if k.idx == -1 then FindIndex(header, k.name) else k.idx;
      if i == -1 then (keys, Some(k.name))
      else
        var rest := ResolveSpecs(keys[1..], header);
        ([k.(idx := i)] + rest.0, rest.1)
  }

  /**
   * The resolution pass fails exactly when some unresolved column names a missing header entry,
   * reports such a name, keeps every name and flag, and only ever turns an index of -1 into the
   * first header position holding the column's name.
   */
  lemma {:induction false} ResolveSpecsMeaning(keys: seq<ColumnSpec>, header: seq<string>)
    ensures var r := ResolveSpecs(keys, header);
      && (r.1.None? <==> forall i :: 0 <= i < |keys| && keys[i].idx == -1 ==> keys[i].name in header)
      && (forall i :: 0 <= i < |keys| ==>
            r.0[i].name == keys[i].name && r.0[i].isNum == keys[i].isNum && r.0[i].isReverse == keys[i].isReverse)
      && (forall i :: 0 <= i < |keys| ==>
            r.0[i].idx == keys[i].idx || (keys[i].idx == -1 && r.0[i].idx == FindIndex(header, keys[i].name) >= 0))
      && (r.1.None? ==> forall i :: 0 <= i < |keys| ==> r.0[i].idx != -1)
      && (r.1.Some? ==> exists i :: 0 <= i < |keys| && keys[i].idx == -1 && keys[i].name == r.1.value)
    decreases |keys|
  {
    if keys != [] {
      var k := keys[0];
      var i := if k.idx == -1 then FindIndex(header, k.name) else k.idx;
      if i != -1 {
        ResolveSpecsMeaning(keys[1..], header);
        var rest := ResolveSpecs(keys[1..], header);
        assert forall j :: 1 <= j < |keys| ==> keys[j] == keys[1..][j - 1];
        if rest.1.Some? {
          var j :| 0 <= j < |keys[1..]| && keys[1..][j].idx == -1 && keys[1..][j].name == rest.1.value;
          assert keys[j + 1].idx == -1 && keys[j + 1].name == rest.1.value;
        }
      }
    }
  }

  class TextColumn {
    var name: string
    var idx: int
    var isNum: bool
    var isReverse: bool

    /** The column's value. */
    function Spec(): ColumnSpec
      reads this
    {
      ColumnSpec(name, idx, isNum, isReverse)
    }

    /** `NewNamedColumn`: the index stays -1 until the name is resolved. */
    constructor NewNamedColumn(name: string)
      ensures Spec() == ColumnSpec(name, -1, false, false)
    {
      this.name := name;
      idx := -1;
      isNum := false;
      isReverse := false;
    }

    /** `NewIndexColumn`: a 0-based index and no name. */
    constructor NewIndexColumn(idx: int)
      ensures Spec() == ColumnSpec("", idx, false, false)
    {
      name := "";
      this.idx := idx;
      isNum := false;
      isReverse := false;
    }

    /** `AsNumber`: sets the numeric flag in place and returns the receiver. */
    method AsNumber() returns (c: TextColumn)
      modifies this
      ensures c == this && Spec() == WithNumber(old(Spec()))
    {
      isNum := true;
      c := this;
    }

    /** `AsReverse`: sets the reverse flag in place and returns the receiver. */
    method AsReverse() returns (c: TextColumn)
      modifies this
      ensures c == this && Spec() == WithReverse(old(Spec()))
    {
      isReverse := true;
      c := this;
    }

    /** `String`. */
    function String(): (s: string)
      reads this
      ensures s == ColumnString(Spec())
    {
      ColumnString(Spec())
    }
  }

  /** The values of a list of columns. */
  function Specs(cols: seq<TextColumn>): (r: seq<ColumnSpec>)
    reads cols
    ensures |r| == |cols|
  {
    if cols == [] then [] else Specs(cols[..|cols| - 1]) + [cols[|cols| - 1].Spec()]
  }

  /** `Specs`, read element by element. */
  lemma {:induction false} SpecsPointwise(cols: seq<TextColumn>)
    ensures forall i :: 0 <= i < |cols| ==> Specs(cols)[i] == cols[i].Spec()
  {
    if cols != [] {
      var n := |cols| - 1;
      SpecsPointwise(cols[..n]);
    }
  }

  /** One more column at the end adds its value at the end. */
  lemma SpecsAppend(cols: seq<TextColumn>, c: TextColumn)
    ensures Specs(cols + [c]) == Specs(cols) + [c.Spec()]
  {
    assert (cols + [c])[..|cols|] == cols;
  }

  /** No column object appears twice in the list, as for every list the column parser builds. */
  predicate Distinct(cols: seq<TextColumn>)
  {
    cols == [] || (cols[|cols| - 1] !in cols[..|cols| - 1] && Distinct(cols[..|cols| - 1]))
  }

  /** `Distinct`, read pairwise. */
  lemma {:induction false} DistinctPairwise(cols: seq<TextColumn>)
    requires Distinct(cols)
    ensures forall i, j :: 0 <= i < j < |cols| ==> cols[i] != cols[j]
  {
    if cols != [] {
      var n := |cols| - 1;
      DistinctPairwise(cols[..n]);
      assert forall i :: 0 <= i < n ==> cols[i] == cols[..n][i];
    }
  }

  /**
   * `populateColIndex` (the same loop appears in the exporter and the sorter): resolves the named
   * columns in place, stopping at the first name the header lacks.
   */
  method ResolveColumns(cols: seq<TextColumn>, header: seq<string>) returns (err: Option<string>)
    requires Distinct(cols)
    modifies set c | c in cols
    ensures (Specs(cols), err) == ResolveSpecs(old(Specs(cols)), header)
  {
    DistinctPairwise(cols);
    SpecsPointwise(cols);
    ghost var keys := Specs(cols);
    ghost var done: seq<ColumnSpec> := [];
    var i := 0;
    ResolveFrom(keys, header, 0, done);
    while i < |cols|
      invariant 0 <= i <= |cols| && |done| == i
      invariant forall j :: 0 <= j < i ==> cols[j].Spec() == done[j]
      invariant forall j :: i <= j < |cols| ==> cols[j].Spec() == keys[j]
      invariant ResolveSpecs(keys, header) == (done + ResolveSpecs(keys[i..], header).0, ResolveSpecs(keys[i..], header).1)
    {
      var col := cols[i];
      if col.idx == -1 {
        var k := FindIndex(header, col.name);
        if k == -1 {
          ResolveStop(keys, header, i, done);
          SpecsSplit(cols, done, keys, i);
          return Some(col.name);
        }
        col.idx := k;
      }
      ResolveStep(keys, header, i, done);
      done := done + [col.Spec()];
      i := i + 1;
    }
    SpecsSplit(cols, done, keys, i);
    err := None;
  }

  /** The loop's starting point: nothing resolved yet. */
  lemma ResolveFrom(keys: seq<ColumnSpec>, header: seq<string>, i: nat, done: seq<ColumnSpec>)
    requires i == 0 && done == []
    ensures ResolveSpecs(keys, header) == (done + ResolveSpecs(keys[i..], header).0, ResolveSpecs(keys[i..], header).1)
  {
    var r := ResolveSpecs(keys, header);
    assert keys[i..] == keys;
    assert done + r.0 == r.0;
  }

  /** One column of the loop, when it resolves (or needs no resolving). */
  lemma ResolveStep(keys: seq<ColumnSpec>, header: seq<string>, i: nat, done: seq<ColumnSpec>)
    requires i < |keys|
    requires keys[i].idx != -1 || FindIndex(header, keys[i].name) != -1
    requires ResolveSpecs(keys, header) == (done + ResolveSpecs(keys[i..], header).0, ResolveSpecs(keys[i..], header).1)
    ensures var c := if keys[i].idx == -1 then keys[i].(idx := FindIndex(header, keys[i].name)) else keys[i];
      ResolveSpecs(keys, header) == ((done + [c]) + ResolveSpecs(keys[i + 1..], header).0, ResolveSpecs(keys[i + 1..], header).1)
  {
    var c := if keys[i].idx == -1 then keys[i].(idx := FindIndex(header, keys[i].name)) else keys[i];
    var rest := ResolveSpecs(keys[i + 1..], header);
    assert keys[i..][0] == keys[i] && keys[i..][1..] == keys[i + 1..];
    assert ResolveSpecs(keys[i..], header) == ([c] + rest.0, rest.1);
    assert done + ([c] + rest.0) == (done + [c]) + rest.0;
  }

  /** The column where the loop stops: its name is missing, and it and the later ones stay as they were. */
  lemma ResolveStop(keys: seq<ColumnSpec>, header: seq<string>, i: nat, done: seq<ColumnSpec>)
    requires i < |keys| && keys[i].idx == -1 && FindIndex(header, keys[i].name) == -1
    requires ResolveSpecs(keys, header) == (done + ResolveSpecs(keys[i..], header).0, ResolveSpecs(keys[i..], header).1)
    ensures ResolveSpecs(keys, header) == (done + keys[i..], Some(keys[i].name))
  {
    assert keys[i..][0] == keys[i];
  }

  /** The values of the columns, read as a resolved prefix and an untouched rest. */
  lemma SpecsSplit(cols: seq<TextColumn>, done: seq<ColumnSpec>, keys: seq<ColumnSpec>, i: nat)
    requires i <= |cols| == |keys| && |done| == i
    requires forall j :: 0 <= j < i ==> cols[j].Spec() == done[j]
    requires forall j :: i <= j < |cols| ==> cols[j].Spec() == keys[j]
    ensures Specs(cols) == done + keys[i..]
  {
    SpecsPointwise(cols);
    var s := done + keys[i..];
    forall j | 0 <= j < |cols|
      ensures Specs(cols)[j] == s[j]
    {
      if j < i {
        assert s[j] == done[j];
      } else {
        assert s[j] == keys[j];
      }
    }
  }
}
