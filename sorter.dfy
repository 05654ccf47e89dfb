/**
 * `TextSorter`: an external merge sort of a delimited file's data records. Records are collected
 * into a fixed-size buffer; each full buffer is sorted and spilled as a run, the remainder becomes a
 * last run, and the runs are merged by repeatedly emitting the least of their current records.
 */
module Sorter {
  import opened StringUtil
  import opened TextColumns
  import opened TextFile
  import Exporter

  /** `defaultSortBufferLen`: how many data records a run holds. */
  const DefaultSortBufferLen: nat := 10000

  // ---------------------------------------------------------------------------------------------
  // TextSortRecords.Less

  /**
   * A `TextSortRecord` without its column list, which the comparison takes as a parameter: the
   * record (`None` for nil) and the run it was read from.
   */
  datatype Entry = Entry(val: Option<TextRecord>, idx: int)

  /** One key's verdict: this key orders the two records, or the next key decides. */
  datatype Ord = Lt | Eq | Gt

  function Flip(o: Ord): Ord
  {
    match o
    case Lt => Gt
    case Eq => Eq
    case Gt => Lt
  }

  /** The value of a record under a column (a cell past the row's end reads as empty). */
  function Cell(r: TextRecord, idx: int): string
  {
    var vs := if r.values.Some? then r.values.value else [];
    if 0 <= idx < |vs| then vs[idx] else ""
  }

  /** The verdict of the two tests `Less` makes on a key, in the direction `isReverse` asks for. */
  function Directed(lt: bool, gt: bool, rev: bool): Ord
  {
    if rev then (if gt then Lt else if lt then Gt else Eq)
    else (if lt then Lt else if gt then Gt else Eq)
  }

  /**
   * One key of `Less`: a numeric key compares the values `parse` (standing for
   * `strconv.ParseFloat`) gives, and either value failing to parse makes the first record the
   * lesser; any other key compares the strings.
   */
  function CompareKey(k: ColumnSpec, parse: string -> Option<real>, x: TextRecord, y: TextRecord): Ord
  {
    var one, two := Cell(x, k.idx), Cell(y, k.idx);
    if k.isNum then
      if parse(one).None? || parse(two).None? then Lt
      else Directed(parse(one).value < parse(two).value, parse(two).value < parse(one).value, k.isReverse)
    else Directed(LexLess(one, two), LexLess(two, one), k.isReverse)
  }

  /** The keys from the first on: the first key that is not `Eq` decides. */
  function CompareFrom(keys: seq<ColumnSpec>, parse: string -> Option<real>, x: TextRecord, y: TextRecord): Ord
  {
    if keys == [] then Eq
    else
      var c := CompareKey(keys[0], parse, x, y);
      if c != Eq then c else CompareFrom(keys[1..], parse, x, y)
  }

  /** `Less`: nil is never less, anything else is less than nil, and otherwise the keys decide. */
  predicate Before(keys: seq<ColumnSpec>, parse: string -> Option<real>, a: Entry, b: Entry)
  {
    if a.val.None? then false
    else if b.val.None? then true
    else CompareFrom(keys, parse, a.val.value, b.val.value) == Lt
  }

  /** `Less`, with its loop over the keys. */
  method Less(keys: seq<ColumnSpec>, parse: string -> Option<real>, a: Entry, b: Entry) returns (r: bool)
    ensures r == Before(keys, parse, a, b)
    ensures a.val.None? ==> !r
    ensures a.val.Some? && b.val.None? ==> r
  {
    if a.val.None? {
      return false;
    }
    if b.val.None? {
      return true;
    }
    var x, y := a.val.value, b.val.value;
    var k := 0;
    while k < |keys|
      invariant 0 <= k <= |keys|
      invariant CompareFrom(keys, parse, x, y) == CompareFrom(keys[k..], parse, x, y)
    {
      var col := keys[k];
      assert keys[k..][0] == col && keys[k..][1..] == keys[k + 1..];
      var one, two := Cell(x, col.idx), Cell(y, col.idx);
      if col.isNum {
        var v1 := parse(one);
        if v1.None? {
          return true;
        }
        var v2 := parse(two);
        if v2.None? {
          return true;
        }
        if col.isReverse {
          if v2.value < v1.value {
            return true;
          } else if v1.value < v2.value {
            return false;
          }
        } else {
          if v1.value < v2.value {
            return true;
          } else if v2.value < v1.value {
            return false;
          }
        }
      } else {
        if col.isReverse {
          if LexLess(two, one) {
            return true;
          } else if LexLess(one, two) {
            return false;
          }
        } else {
          if LexLess(one, two) {
            return true;
          } else if LexLess(two, one) {
            return false;
          }
        }
      }
      k := k + 1;
    }
    return false;
  }

  // ---------------------------------------------------------------------------------------------
  // The order `Less` defines

  /** Every numeric key of the record parses. */
  predicate Comparable(keys: seq<ColumnSpec>, parse: string -> Option<real>, r: TextRecord)
  {
    forall j :: 0 <= j < |keys| && keys[j].isNum ==> parse(Cell(r, keys[j].idx)).Some?
  }

  predicate EntryComparable(keys: seq<ColumnSpec>, parse: string -> Option<real>, e: Entry)
  {
    e.val.None? || Comparable(keys, parse, e.val.value)
  }

  /**
   * A numeric key whose value does not parse makes each of two records less than the other: on
   * such rows `Less` is not an order.
   */
  lemma UnparsableLessBothWays(keys: seq<ColumnSpec>, parse: string -> Option<real>, a: Entry, b: Entry)
    requires a.val.Some? && b.val.Some? && keys != [] && keys[0].isNum
    requires parse(Cell(a.val.value, keys[0].idx)).None?
    ensures Before(keys, parse, a, b) && Before(keys, parse, b, a)
  {
  }

  /** One key, read the other way round, gives the flipped verdict. */
  lemma KeyFlip(k: ColumnSpec, parse: string -> Option<real>, x: TextRecord, y: TextRecord)
    requires k.isNum ==> parse(Cell(x, k.idx)).Some? && parse(Cell(y, k.idx)).Some?
    ensures CompareKey(k, parse, y, x) == Flip(CompareKey(k, parse, x, y))
  {
    if !k.isNum {
      LexLessTrichotomy(Cell(x, k.idx), Cell(y, k.idx));
    }
  }

  /** A key on which two records tie compares them alike with any third record. */
  lemma KeyTie(k: ColumnSpec, parse: string -> Option<real>, x: TextRecord, y: TextRecord, z: TextRecord)
    requires k.isNum ==> parse(Cell(x, k.idx)).Some? && parse(Cell(y, k.idx)).Some?
    requires CompareKey(k, parse, x, y) == Eq
    ensures CompareKey(k, parse, x, z) == CompareKey(k, parse, y, z)
    ensures CompareKey(k, parse, z, x) == CompareKey(k, parse, z, y)
  {
    if !k.isNum {
      LexLessTrichotomy(Cell(x, k.idx), Cell(y, k.idx));
    } else {
      assert parse(Cell(x, k.idx)) == parse(Cell(y, k.idx));
    }
  }

  /** One key's strict order is transitive. */
  lemma KeyTransitive(k: ColumnSpec, parse: string -> Option<real>, x: TextRecord, y: TextRecord, z: TextRecord)
    requires k.isNum ==> parse(Cell(x, k.idx)).Some? && parse(Cell(y, k.idx)).Some? && parse(Cell(z, k.idx)).Some?
    requires CompareKey(k, parse, x, y) == Lt && CompareKey(k, parse, y, z) == Lt
    ensures CompareKey(k, parse, x, z) == Lt
  {
    if !k.isNum {
      var a, b, c := Cell(x, k.idx), Cell(y, k.idx), Cell(z, k.idx);
      LexLessTrichotomy(a, b);
      LexLessTrichotomy(b, c);
      LexLessTrichotomy(a, c);
      if k.isReverse {
        LexLessTransitive(c, b, a);
      } else {
        LexLessTransitive(a, b, c);
      }
    }
  }

  /** All the keys, read the other way round, give the flipped verdict. */
  lemma {:induction false} CompareFlip(keys: seq<ColumnSpec>, parse: string -> Option<real>, x: TextRecord, y: TextRecord)
    requires Comparable(keys, parse, x) && Comparable(keys, parse, y)
    ensures CompareFrom(keys, parse, y, x) == Flip(CompareFrom(keys, parse, x, y))
    decreases |keys|
  {
    if keys != [] {
      KeyFlip(keys[0], parse, x, y);
      ComparableTail(keys, parse, x);
      ComparableTail(keys, parse, y);
      CompareFlip(keys[1..], parse, x, y);
    }
  }

  lemma ComparableTail(keys: seq<ColumnSpec>, parse: string -> Option<real>, x: TextRecord)
    requires keys != [] && Comparable(keys, parse, x)
    ensures Comparable(keys[1..], parse, x)
    ensures keys[0].isNum ==> parse(Cell(x, keys[0].idx)).Some?
  {
    forall j | 0 <= j < |keys| - 1 && keys[1..][j].isNum
      ensures parse(Cell(x, keys[1..][j].idx)).Some?
    {
      assert keys[1..][j] == keys[j + 1];
    }
  }

  /** "Not after" is transitive over all the keys. */
  lemma {:induction false} CompareNotGtTransitive(keys: seq<ColumnSpec>, parse: string -> Option<real>,
                                                  x: TextRecord, y: TextRecord, z: TextRecord)
    requires Comparable(keys, parse, x) && Comparable(keys, parse, y) && Comparable(keys, parse, z)
    requires CompareFrom(keys, parse, x, y) != Gt && CompareFrom(keys, parse, y, z) != Gt
    ensures CompareFrom(keys, parse, x, z) != Gt
    decreases |keys|
  {
    if keys != [] {
      var k := keys[0];
      ComparableTail(keys, parse, x);
      ComparableTail(keys, parse, y);
      ComparableTail(keys, parse, z);
      var c1, c2 := CompareKey(k, parse, x, y), CompareKey(k, parse, y, z);
      if c1 == Eq {
        KeyTie(k, parse, x, y, z);
        if c2 == Eq {
          CompareNotGtTransitive(keys[1..], parse, x, y, z);
        }
      } else if c2 == Eq {
        KeyTie(k, parse, y, z, x);
      } else {
        KeyTransitive(k, parse, x, y, z);
      }
    }
  }

  /** `Less` never holds between a comparable record and itself. */
  lemma {:induction false} CompareIrreflexive(keys: seq<ColumnSpec>, parse: string -> Option<real>, x: TextRecord)
    requires Comparable(keys, parse, x)
    ensures CompareFrom(keys, parse, x, x) == Eq
    decreases |keys|
  {
    if keys != [] {
      ComparableTail(keys, parse, x);
      if !keys[0].isNum {
        LexLessIrreflexive(Cell(x, keys[0].idx));
      }
      CompareIrreflexive(keys[1..], parse, x);
    }
  }

  /**
   * On comparable records `Less` is a strict weak order, with nil after everything: irreflexive,
   * asymmetric, and its negation is transitive.
   */
  lemma BeforeIsStrictWeakOrder(keys: seq<ColumnSpec>, parse: string -> Option<real>, a: Entry, b: Entry, c: Entry)
    requires EntryComparable(keys, parse, a) && EntryComparable(keys, parse, b) && EntryComparable(keys, parse, c)
    ensures !Before(keys, parse, a, a)
    ensures Before(keys, parse, a, b) ==> !Before(keys, parse, b, a)
    ensures !Before(keys, parse, a, b) && !Before(keys, parse, b, c) ==> !Before(keys, parse, a, c)
  {
    if a.val.Some? {
      CompareIrreflexive(keys, parse, a.val.value);
      if b.val.Some? {
        CompareFlip(keys, parse, a.val.value, b.val.value);
      }
    }
    if !Before(keys, parse, a, b) && !Before(keys, parse, b, c) && a.val.Some? {
      var x, y, z := a.val.value, b.val.value, c.val.value;
      CompareFlip(keys, parse, x, y);
      CompareFlip(keys, parse, y, z);
      CompareFlip(keys, parse, x, z);
      CompareNotGtTransitive(keys, parse, z, y, x);
    }
  }

  /** And `Less` is transitive there. */
  lemma BeforeTransitive(keys: seq<ColumnSpec>, parse: string -> Option<real>, a: Entry, b: Entry, c: Entry)
    requires EntryComparable(keys, parse, a) && EntryComparable(keys, parse, b) && EntryComparable(keys, parse, c)
    requires Before(keys, parse, a, b) && Before(keys, parse, b, c)
    ensures Before(keys, parse, a, c)
  {
    BeforeIsStrictWeakOrder(keys, parse, a, c, b);
    BeforeIsStrictWeakOrder(keys, parse, b, c, a);
  }

  // ---------------------------------------------------------------------------------------------
  // Records in the order `Less` defines

  /** `x` may be written before `y`: `y` is not less than `x`. */
  predicate Le(keys: seq<ColumnSpec>, parse: string -> Option<real>, x: TextRecord, y: TextRecord)
  {
    CompareFrom(keys, parse, y, x) != Lt
  }

  /** Every numeric key of every record parses. */
  predicate RecsComparable(keys: seq<ColumnSpec>, parse: string -> Option<real>, s: seq<TextRecord>)
  {
    forall j :: 0 <= j < |s| ==> Comparable(keys, parse, s[j])
  }

  /** Comparable records, none of them less than one before it. */
  predicate Ordered(keys: seq<ColumnSpec>, parse: string -> Option<real>, s: seq<TextRecord>)
  {
    && RecsComparable(keys, parse, s)
    && forall i, j :: 0 <= i < j < |s| ==> Le(keys, parse, s[i], s[j])
  }

  /** None of `rest` is less than `h`. */
  predicate HeadBelow(keys: seq<ColumnSpec>, parse: string -> Option<real>, h: TextRecord, rest: seq<TextRecord>)
  {
    forall j :: 0 <= j < |rest| ==> Le(keys, parse, h, rest[j])
  }

  lemma LeReflexive(keys: seq<ColumnSpec>, parse: string -> Option<real>, x: TextRecord)
    requires Comparable(keys, parse, x)
    ensures Le(keys, parse, x, x)
  {
    CompareIrreflexive(keys, parse, x);
  }

  lemma LeTransitive(keys: seq<ColumnSpec>, parse: string -> Option<real>, x: TextRecord, y: TextRecord, z: TextRecord)
    requires Comparable(keys, parse, x) && Comparable(keys, parse, y) && Comparable(keys, parse, z)
    requires Le(keys, parse, x, y) && Le(keys, parse, y, z)
    ensures Le(keys, parse, x, z)
  {
    CompareFlip(keys, parse, x, y);
    CompareFlip(keys, parse, y, z);
    CompareFlip(keys, parse, x, z);
    CompareNotGtTransitive(keys, parse, x, y, z);
  }

  /** A record not less than the last of an ordered sequence extends it. */
  lemma OrderedSnoc(keys: seq<ColumnSpec>, parse: string -> Option<real>, s: seq<TextRecord>, x: TextRecord)
    requires Ordered(keys, parse, s) && Comparable(keys, parse, x)
    requires s != [] ==> Le(keys, parse, s[|s| - 1], x)
    ensures Ordered(keys, parse, s + [x])
  {
    var t := s + [x];
    forall i, j | 0 <= i < j < |t|
      ensures Le(keys, parse, t[i], t[j])
    {
      if j == |s| && i < |s| - 1 {
        LeTransitive(keys, parse, s[i], s[|s| - 1], x);
      }
    }
  }

  /** A record that no later one is less than heads an ordered sequence. */
  lemma OrderedCons(keys: seq<ColumnSpec>, parse: string -> Option<real>, x: TextRecord, s: seq<TextRecord>)
    requires Ordered(keys, parse, s) && Comparable(keys, parse, x) && HeadBelow(keys, parse, x, s)
    ensures Ordered(keys, parse, [x] + s)
  {
    var t := [x] + s;
    forall i, j | 0 <= i < j < |t|
      ensures Le(keys, parse, t[i], t[j])
    {
      if i > 0 {
        assert t[i] == s[i - 1] && t[j] == s[j - 1];
      } else {
        assert t[j] == s[j - 1];
      }
    }
    forall j | 0 <= j < |t|
      ensures Comparable(keys, parse, t[j])
    {
      if j > 0 {
        assert t[j] == s[j - 1];
      }
    }
  }

  /** What follows the first record of an ordered sequence is ordered and not less than it. */
  lemma OrderedTail(keys: seq<ColumnSpec>, parse: string -> Option<real>, s: seq<TextRecord>)
    requires Ordered(keys, parse, s) && s != []
    ensures Ordered(keys, parse, s[1..]) && HeadBelow(keys, parse, s[0], s[1..])
    ensures Comparable(keys, parse, s[0])
  {
    forall i, j | 0 <= i < j < |s[1..]|
      ensures Le(keys, parse, s[1..][i], s[1..][j])
    {
      assert s[1..][i] == s[i + 1] && s[1..][j] == s[j + 1];
    }
    forall j | 0 <= j < |s[1..]|
      ensures Le(keys, parse, s[0], s[1..][j]) && Comparable(keys, parse, s[1..][j])
    {
      assert s[1..][j] == s[j + 1];
    }
  }

  /** Dropping the first record keeps a head below the rest. */
  lemma HeadBelowTail(keys: seq<ColumnSpec>, parse: string -> Option<real>, h: TextRecord, s: seq<TextRecord>)
    requires HeadBelow(keys, parse, h, s) && s != []
    ensures HeadBelow(keys, parse, h, s[1..])
  {
    forall j | 0 <= j < |s[1..]|
      ensures Le(keys, parse, h, s[1..][j])
    {
      assert s[1..][j] == s[j + 1];
    }
  }

  // ---------------------------------------------------------------------------------------------
  // sort.Sort

  /** Every later entry is not less than an earlier one. */
  predicate Sorted(keys: seq<ColumnSpec>, parse: string -> Option<real>, s: seq<Entry>)
  {
    forall i, j :: 0 <= i < j < |s| ==> !Before(keys, parse, s[j], s[i])
  }

  /** The nil entries come last. */
  predicate NilLast(s: seq<Entry>)
  {
    forall i, j :: 0 <= i < j < |s| && s[i].val.None? ==> s[j].val.None?
  }

  predicate AllComparable(keys: seq<ColumnSpec>, parse: string -> Option<real>, s: seq<Entry>)
  {
    forall i :: 0 <= i < |s| ==> EntryComparable(keys, parse, s[i])
  }

  /** Places `x` before the first entry that is not less than it. */
  function Insert(keys: seq<ColumnSpec>, parse: string -> Option<real>, x: Entry, s: seq<Entry>): (r: seq<Entry>)
    ensures |r| == |s| + 1 && multiset(r) == multiset(s) + multiset{x}
  {
    if s == [] then [x]
    else if Before(keys, parse, s[0], x) then
      assert s == [s[0]] + s[1..];
      [s[0]] + Insert(keys, parse, x, s[1..])
    else [x] + s
  }

  /**
   * The stand-in for `sort.Sort` under `Less`: a stable insertion sort. What the model relies on is
   * that the result is a permutation, ordered when the entries are comparable, nil entries last.
   */
  function SortEntries(keys: seq<ColumnSpec>, parse: string -> Option<real>, s: seq<Entry>): (r: seq<Entry>)
    ensures |r| == |s| && multiset(r) == multiset(s)
  {
    if s == [] then []
    else
      assert s == [s[0]] + s[1..];
      Insert(keys, parse, s[0], SortEntries(keys, parse, s[1..]))
  }

  lemma {:induction false} InsertSorted(keys: seq<ColumnSpec>, parse: string -> Option<real>, x: Entry, s: seq<Entry>)
    requires EntryComparable(keys, parse, x) && AllComparable(keys, parse, s) && Sorted(keys, parse, s)
    ensures Sorted(keys, parse, Insert(keys, parse, x, s))
    decreases |s|
  {
    if s != [] {
      var r := Insert(keys, parse, x, s);
      if Before(keys, parse, s[0], x) {
        var t := Insert(keys, parse, x, s[1..]);
        InsertSorted(keys, parse, x, s[1..]);
        BeforeIsStrictWeakOrder(keys, parse, s[0], x, x);
        forall j | 0 <= j < |t|
          ensures !Before(keys, parse, t[j], s[0])
        {
          assert t[j] in multiset(t);
          if t[j] != x {
            assert t[j] in multiset(s[1..]);
            var m :| 0 <= m < |s[1..]| && s[1..][m] == t[j];
            assert s[m + 1] == t[j];
          }
        }
        assert r == [s[0]] + t;
      } else {
        forall j | 0 <= j < |s|
          ensures !Before(keys, parse, s[j], x)
        {
          if j > 0 {
            BeforeIsStrictWeakOrder(keys, parse, s[j], s[0], x);
          }
        }
        assert r == [x] + s;
      }
    }
  }

  /** The stand-in sorts comparable entries. */
  lemma {:induction false} SortSorted(keys: seq<ColumnSpec>, parse: string -> Option<real>, s: seq<Entry>)
    requires AllComparable(keys, parse, s)
    ensures Sorted(keys, parse, SortEntries(keys, parse, s))
    decreases |s|
  {
    if s != [] {
      var t := SortEntries(keys, parse, s[1..]);
      SortSorted(keys, parse, s[1..]);
      forall i | 0 <= i < |t|
        ensures EntryComparable(keys, parse, t[i])
      {
        assert t[i] in multiset(s[1..]);
        var m :| 0 <= m < |s[1..]| && s[1..][m] == t[i];
        assert s[m + 1] == t[i];
      }
      InsertSorted(keys, parse, s[0], t);
    }
  }

  lemma {:induction false} InsertNilLast(keys: seq<ColumnSpec>, parse: string -> Option<real>, x: Entry, s: seq<Entry>)
    requires NilLast(s)
    ensures NilLast(Insert(keys, parse, x, s))
    decreases |s|
  {
    if s != [] {
      if Before(keys, parse, s[0], x) {
        InsertNilLast(keys, parse, x, s[1..]);
      } else if x.val.None? {
        assert s[0].val.None?;
      }
    }
  }

  /** Whatever the keys, the stand-in puts the nil entries last. */
  lemma {:induction false} SortNilLast(keys: seq<ColumnSpec>, parse: string -> Option<real>, s: seq<Entry>)
    ensures NilLast(SortEntries(keys, parse, s))
    decreases |s|
  {
    if s != [] {
      SortNilLast(keys, parse, s[1..]);
      InsertNilLast(keys, parse, s[0], SortEntries(keys, parse, s[1..]));
    }
  }

  /** `sort.Sort` on a buffer, in place. */
  method SortBuffer(keys: seq<ColumnSpec>, parse: string -> Option<real>, a: array<Entry>)
    modifies a
    ensures a[..] == SortEntries(keys, parse, old(a[..]))
  {
    var s := SortEntries(keys, parse, a[..]);
    forall i | 0 <= i < a.Length {
      a[i] := s[i];
    }
  }

  // ---------------------------------------------------------------------------------------------
  // Runs

  /** The records of the non-nil entries, in order: what writing the entries' lines puts in a run. */
  function Recs(es: seq<Entry>): (r: seq<TextRecord>)
    ensures |r| <= |es|
  {
    if es == [] then []
    else (if es[0].val.Some? then [es[0].val.value] else []) + Recs(es[1..])
  }

  lemma {:induction false} RecsAppend(a: seq<Entry>, b: seq<Entry>)
    ensures Recs(a + b) == Recs(a) + Recs(b)
    decreases |a|
  {
    if a != [] {
      assert (a + b)[0] == a[0];
      assert (a + b)[1..] == a[1..] + b;
      RecsAppend(a[1..], b);
    } else {
      assert a + b == b;
    }
  }

  /** Where the first element of `s` sits in a permutation `t` of it, and what is left of both. */
  lemma PickOut<T>(s: seq<T>, t: seq<T>) returns (k: nat)
    requires multiset(s) == multiset(t) && s != []
    ensures k < |t| && t[k] == s[0]
    ensures t == (t[..k] + [s[0]]) + t[k + 1..]
    ensures multiset(s[1..]) == multiset(t[..k] + t[k + 1..])
  {
    assert s[0] in multiset(t);
    k :| 0 <= k < |t| && t[k] == s[0];
    assert t == (t[..k] + [s[0]]) + t[k + 1..];
    assert s == [s[0]] + s[1..];
    forall o
      ensures multiset(s[1..])[o] == multiset(t[..k] + t[k + 1..])[o]
    {
      assert multiset(s)[o] == multiset([s[0]])[o] + multiset(s[1..])[o];
      assert multiset(t)[o] == multiset(t[..k] + [s[0]])[o] + multiset(t[k + 1..])[o];
      assert multiset(t[..k] + [s[0]])[o] == multiset(t[..k])[o] + multiset([s[0]])[o];
      assert multiset(t[..k] + t[k + 1..])[o] == multiset(t[..k])[o] + multiset(t[k + 1..])[o];
    }
  }

  /** An element taken from the middle of three, as multisets. */
  lemma Middle<T>(l: multiset<T>, m: multiset<T>, r: multiset<T>)
    ensures (l + m) + r == m + (l + r)
  {
    forall o
      ensures ((l + m) + r)[o] == (m + (l + r))[o]
    {
    }
  }

  /** Permuting the entries permutes their records. */
  lemma {:induction false} RecsPermutation(s: seq<Entry>, t: seq<Entry>)
    requires multiset(s) == multiset(t)
    ensures multiset(Recs(s)) == multiset(Recs(t))
    decreases |s|
  {
    if s != [] {
      var k := PickOut(s, t);
      var l, m, r := t[..k], [s[0]], t[k + 1..];
      RecsPermutation(s[1..], l + r);
      RecsAppend(l + m, r);
      RecsAppend(l, m);
      RecsAppend(l, r);
      assert Recs(s) == Recs(m) + Recs(s[1..]) by {
        assert m[1..] == [] && Recs(m) == (if s[0].val.Some? then [s[0].val.value] else []);
      }
      Middle(multiset(Recs(l)), multiset(Recs(m)), multiset(Recs(r)));
    }
  }

  /** A sequence of runs, one after the other. */
  function Flatten(runs: seq<seq<TextRecord>>): seq<TextRecord>
  {
    if runs == [] then [] else Flatten(runs[..|runs| - 1]) + runs[|runs| - 1]
  }

  lemma FlattenPair(a: seq<TextRecord>, b: seq<TextRecord>)
    ensures Flatten([a, b]) == a + b
  {
    assert [a][..0] == [];
    assert Flatten([a]) == a;
    assert [a, b][..1] == [a];
  }

  /** The state of the spill loop: the runs written so far, the buffer `records` and the position `pos`. */
  datatype Spill = Spill(runs: seq<seq<TextRecord>>, buf: seq<Entry>, pos: nat)

  /** `make(TextSortRecords, sortBufferLen)`: `n` zero-valued entries. */
  function EmptyBuffer(n: nat): (r: seq<Entry>)
    ensures |r| == n
  {
    seq(n, i => Entry(None, 0))
  }

  /**
   * One data record into the buffer, at `pos`; a full buffer is sorted in place and written whole
   * as a run, and `pos` starts again at zero.
   */
  function Push(keys: seq<ColumnSpec>, parse: string -> Option<real>, st: Spill, rec: TextRecord): (r: Spill)
    requires st.pos < |st.buf|
    ensures |r.buf| == |st.buf| && r.pos < |r.buf|
  {
    var buf := st.buf[st.pos := Entry(Some(rec), 0)];
    if st.pos + 1 >= |buf| then
      var sorted := SortEntries(keys, parse, buf);
      Spill(st.runs + [Recs(sorted)], sorted, 0)
    else Spill(st.runs, buf, st.pos + 1)
  }

  /** The spill loop over the data records, with a buffer of `n` entries. */
  function Collect(keys: seq<ColumnSpec>, parse: string -> Option<real>, n: nat, data: seq<TextRecord>): (r: Spill)
    requires n > 0
    ensures |r.buf| == n && r.pos < n
  {
    if data == [] then Spill([], EmptyBuffer(n), 0)
    else Push(keys, parse, Collect(keys, parse, n, data[..|data| - 1]), data[|data| - 1])
  }

  /**
   * The runs once the input ends: a non-empty remainder becomes one more run. As written
   * (`fixed` false) the whole buffer is sorted and its first `pos` entries are written; corrected,
   * only `records[:pos]` is sorted.
   */
  function FinalRuns(keys: seq<ColumnSpec>, parse: string -> Option<real>, st: Spill, fixed: bool): seq<seq<TextRecord>>
    requires st.pos <= |st.buf|
  {
    if st.pos > 0 then
      st.runs + [if fixed then Recs(SortEntries(keys, parse, st.buf[..st.pos]))
                 else Recs(SortEntries(keys, parse, st.buf)[..st.pos])]
    else st.runs
  }

  /** The runs the data records are spilled into. */
  function Runs(keys: seq<ColumnSpec>, parse: string -> Option<real>, n: nat, data: seq<TextRecord>, fixed: bool)
    : seq<seq<TextRecord>>
    requires n > 0
  {
    FinalRuns(keys, parse, Collect(keys, parse, n, data), fixed)
  }

  /**
   * The spill loop keeps every record: in the runs or at the front of the buffer, whose first `pos`
   * entries are all non-nil; no run is empty.
   */
  predicate Holds(st: Spill, data: seq<TextRecord>)
  {
    && st.pos <= |st.buf|
    && |Recs(st.buf[..st.pos])| == st.pos
    && [] !in st.runs
    && multiset(Flatten(st.runs)) + multiset(Recs(st.buf[..st.pos])) == multiset(data)
  }

  /** A record put at `pos` is kept. */
  lemma PutHolds(st: Spill, data: seq<TextRecord>, rec: TextRecord)
    requires st.pos < |st.buf| && Holds(st, data)
    ensures Holds(Spill(st.runs, st.buf[st.pos := Entry(Some(rec), 0)], st.pos + 1), data + [rec])
  {
    var e := Entry(Some(rec), 0);
    var buf := st.buf[st.pos := e];
    assert Recs(buf[..st.pos + 1]) == Recs(st.buf[..st.pos]) + [rec] by {
      assert buf[..st.pos + 1] == st.buf[..st.pos] + [e];
      RecsAppend(st.buf[..st.pos], [e]);
      assert Recs([e]) == [rec];
    }
    assert multiset(data + [rec]) == multiset(data) + multiset{rec};
  }

  /** Sorting a permutation keeps the records, and how many there are. */
  lemma SortedRecs(keys: seq<ColumnSpec>, parse: string -> Option<real>, s: seq<Entry>)
    ensures multiset(Recs(SortEntries(keys, parse, s))) == multiset(Recs(s))
    ensures |Recs(SortEntries(keys, parse, s))| == |Recs(s)|
  {
    RecsPermutation(SortEntries(keys, parse, s), s);
    assert |multiset(Recs(SortEntries(keys, parse, s)))| == |multiset(Recs(s))|;
  }

  /** A full buffer written as a run is kept, and the run is not empty. */
  lemma SpillHolds(keys: seq<ColumnSpec>, parse: string -> Option<real>, st: Spill, data: seq<TextRecord>)
    requires st.pos == |st.buf| > 0 && Holds(st, data)
    ensures Holds(Spill(st.runs + [Recs(SortEntries(keys, parse, st.buf))], SortEntries(keys, parse, st.buf), 0), data)
  {
    var sorted := SortEntries(keys, parse, st.buf);
    assert st.buf[..st.pos] == st.buf;
    SortedRecs(keys, parse, st.buf);
    assert Recs(sorted) != [];
    assert Flatten(st.runs + [Recs(sorted)]) == Flatten(st.runs) + Recs(sorted) by {
      assert (st.runs + [Recs(sorted)])[..|st.runs|] == st.runs;
    }
    assert sorted[..0] == [];
  }

  /** One data record pushed is kept. */
  lemma PushHolds(keys: seq<ColumnSpec>, parse: string -> Option<real>, st: Spill, data: seq<TextRecord>, rec: TextRecord)
    requires st.pos < |st.buf| && Holds(st, data)
    ensures Holds(Push(keys, parse, st, rec), data + [rec])
  {
    var buf := st.buf[st.pos := Entry(Some(rec), 0)];
    PutHolds(st, data, rec);
    if st.pos + 1 >= |buf| {
      SpillHolds(keys, parse, Spill(st.runs, buf, st.pos + 1), data + [rec]);
    }
  }

  /** The spill loop keeps every data record. */
  lemma {:induction false} CollectHolds(keys: seq<ColumnSpec>, parse: string -> Option<real>, n: nat, data: seq<TextRecord>)
    requires n > 0
    ensures Holds(Collect(keys, parse, n, data), data)
    decreases |data|
  {
    if data == [] {
      assert Collect(keys, parse, n, data).buf[..0] == [];
    } else {
      var m := |data| - 1;
      CollectHolds(keys, parse, n, data[..m]);
      PushHolds(keys, parse, Collect(keys, parse, n, data[..m]), data[..m], data[m]);
      assert data[..m] + [data[m]] == data;
    }
  }

  /**
   * Corrected, the runs hold exactly the data records, and none of them is empty: a full buffer
   * and a non-empty remainder each give a run.
   */
  lemma RunsPermutation(keys: seq<ColumnSpec>, parse: string -> Option<real>, n: nat, data: seq<TextRecord>)
    requires n > 0
    ensures multiset(Flatten(Runs(keys, parse, n, data, true))) == multiset(data)
    ensures [] !in Runs(keys, parse, n, data, true)
  {
    var st := Collect(keys, parse, n, data);
    CollectHolds(keys, parse, n, data);
    var runs := Runs(keys, parse, n, data, true);
    if st.pos > 0 {
      var last := Recs(SortEntries(keys, parse, st.buf[..st.pos]));
      assert runs == st.runs + [last];
      SortedRecs(keys, parse, st.buf[..st.pos]);
      assert last != [];
      assert Flatten(runs) == Flatten(st.runs) + last by {
        assert runs[..|st.runs|] == st.runs;
      }
    } else {
      assert runs == st.runs;
      assert st.buf[..0] == [];
    }
  }

  /** The records of sorted, comparable entries are ordered. */
  lemma {:induction false} RecsOrdered(keys: seq<ColumnSpec>, parse: string -> Option<real>, t: seq<Entry>)
    requires Sorted(keys, parse, t) && AllComparable(keys, parse, t)
    ensures Ordered(keys, parse, Recs(t))
    decreases |t|
  {
    if t != [] {
      var u := t[1..];
      forall i, j | 0 <= i < j < |u|
        ensures !Before(keys, parse, u[j], u[i])
      {
        assert u[i] == t[i + 1] && u[j] == t[j + 1];
      }
      forall i | 0 <= i < |u|
        ensures EntryComparable(keys, parse, u[i])
      {
        assert u[i] == t[i + 1];
      }
      RecsOrdered(keys, parse, u);
      if t[0].val.Some? {
        var x := t[0].val.value;
        forall k | 0 <= k < |u| && u[k].val.Some?
          ensures Le(keys, parse, x, u[k].val.value)
        {
          assert u[k] == t[k + 1];
          assert !Before(keys, parse, t[k + 1], t[0]);
        }
        RecsBelow(keys, parse, x, u);
        assert Recs(t) == [x] + Recs(u);
        OrderedCons(keys, parse, x, Recs(u));
      }
    }
  }

  /** A record no non-nil entry is less than is below their records. */
  lemma {:induction false} RecsBelow(keys: seq<ColumnSpec>, parse: string -> Option<real>, x: TextRecord, t: seq<Entry>)
    requires forall k :: 0 <= k < |t| && t[k].val.Some? ==> Le(keys, parse, x, t[k].val.value)
    ensures HeadBelow(keys, parse, x, Recs(t))
    decreases |t|
  {
    if t != [] {
      var u := t[1..];
      forall k | 0 <= k < |u| && u[k].val.Some?
        ensures Le(keys, parse, x, u[k].val.value)
      {
        assert u[k] == t[k + 1];
      }
      RecsBelow(keys, parse, x, u);
      if t[0].val.Some? {
        var r := Recs(t);
        assert r == [t[0].val.value] + Recs(u);
        forall j | 0 <= j < |r|
          ensures Le(keys, parse, x, r[j])
        {
          if j > 0 {
            assert r[j] == Recs(u)[j - 1];
          }
        }
      }
    }
  }

  /** Sorting comparable entries keeps them comparable and orders their records. */
  lemma SortedRun(keys: seq<ColumnSpec>, parse: string -> Option<real>, s: seq<Entry>)
    requires AllComparable(keys, parse, s)
    ensures AllComparable(keys, parse, SortEntries(keys, parse, s))
    ensures Ordered(keys, parse, Recs(SortEntries(keys, parse, s)))
  {
    var t := SortEntries(keys, parse, s);
    SortSorted(keys, parse, s);
    forall i | 0 <= i < |t|
      ensures EntryComparable(keys, parse, t[i])
    {
      assert t[i] in multiset(s);
      var m :| 0 <= m < |s| && s[m] == t[i];
    }
    RecsOrdered(keys, parse, t);
  }

  /** The spill loop's ordering invariant: the buffer's entries are comparable and each run is ordered. */
  predicate SpillOrdered(keys: seq<ColumnSpec>, parse: string -> Option<real>, st: Spill)
  {
    && AllComparable(keys, parse, st.buf)
    && forall k :: 0 <= k < |st.runs| ==> Ordered(keys, parse, st.runs[k])
  }

  /** Pushing a comparable record keeps the ordering invariant. */
  lemma PushOrdered(keys: seq<ColumnSpec>, parse: string -> Option<real>, st: Spill, rec: TextRecord)
    requires st.pos < |st.buf| && SpillOrdered(keys, parse, st) && Comparable(keys, parse, rec)
    ensures SpillOrdered(keys, parse, Push(keys, parse, st, rec))
  {
    var buf := st.buf[st.pos := Entry(Some(rec), 0)];
    assert AllComparable(keys, parse, buf);
    if st.pos + 1 >= |buf| {
      SortedRun(keys, parse, buf);
      var runs := st.runs + [Recs(SortEntries(keys, parse, buf))];
      assert forall k :: 0 <= k < |st.runs| ==> runs[k] == st.runs[k];
    }
  }

  /** Over comparable data records the spill loop keeps the ordering invariant. */
  lemma {:induction false} CollectOrdered(keys: seq<ColumnSpec>, parse: string -> Option<real>, n: nat, data: seq<TextRecord>)
    requires n > 0 && RecsComparable(keys, parse, data)
    ensures SpillOrdered(keys, parse, Collect(keys, parse, n, data))
    decreases |data|
  {
    if data != [] {
      var m := |data| - 1;
      assert RecsComparable(keys, parse, data[..m]) by {
        forall j | 0 <= j < m
          ensures Comparable(keys, parse, data[..m][j])
        {
          assert data[..m][j] == data[j];
        }
      }
      CollectOrdered(keys, parse, n, data[..m]);
      PushOrdered(keys, parse, Collect(keys, parse, n, data[..m]), data[m]);
    }
  }

  /** Corrected, when every numeric key parses, every run is ordered. */
  lemma RunsOrdered(keys: seq<ColumnSpec>, parse: string -> Option<real>, n: nat, data: seq<TextRecord>)
    requires n > 0 && RecsComparable(keys, parse, data)
    ensures forall k :: 0 <= k < |Runs(keys, parse, n, data, true)| ==> Ordered(keys, parse, Runs(keys, parse, n, data, true)[k])
  {
    var st := Collect(keys, parse, n, data);
    CollectOrdered(keys, parse, n, data);
    var runs := Runs(keys, parse, n, data, true);
    if st.pos > 0 {
      var front := st.buf[..st.pos];
      assert AllComparable(keys, parse, front) by {
        forall i | 0 <= i < |front|
          ensures EntryComparable(keys, parse, front[i])
        {
          assert front[i] == st.buf[i];
        }
      }
      SortedRun(keys, parse, front);
      assert runs == st.runs + [Recs(SortEntries(keys, parse, front))];
    } else {
      assert runs == st.runs;
    }
  }

  /** Sorting two entries puts the second first only when it is strictly less. */
  lemma SortPair(keys: seq<ColumnSpec>, parse: string -> Option<real>, x: Entry, y: Entry)
    ensures SortEntries(keys, parse, [x, y]) == if Before(keys, parse, y, x) then [y, x] else [x, y]
  {
    assert [x, y][1..] == [y];
    assert SortEntries(keys, parse, [y]) == [y] by {
      assert [y][1..] == [];
    }
    assert [y][1..] == [];
  }

  /** A one-column data row holding `v`, from line `n`. */
  function Row(v: string, n: int): TextRecord
  {
    TextRecord(Some([v]), n, n, v, false, |v| + 1)
  }

  /** A stand-in for `strconv.ParseFloat` that parses nothing; string keys never call it. */
  function NoNumbers(s: string): Option<real>
  {
    None
  }

  /** Sorting by the first column as a string. */
  const ByFirst := [ColumnSpec("", 0, false, false)]

  /** Row "1" sorts before row "2". */
  lemma SortTwoRows()
    ensures SortEntries(ByFirst, NoNumbers, [Entry(Some(Row("2", 1)), 0), Entry(Some(Row("1", 2)), 0)])
         == [Entry(Some(Row("1", 2)), 0), Entry(Some(Row("2", 1)), 0)]
  {
    var e1, e2 := Entry(Some(Row("2", 1)), 0), Entry(Some(Row("1", 2)), 0);
    assert Cell(Row("1", 2), 0) == "1" && Cell(Row("2", 1), 0) == "2";
    assert LexLess("1", "2");
    assert Before(ByFirst, NoNumbers, e2, e1);
    SortPair(ByFirst, NoNumbers, e1, e2);
  }

  /** The spill state after rows "2" and "1" with a buffer of two: one run, sorted. */
  lemma CollectTwoRows()
    ensures Collect(ByFirst, NoNumbers, 2, [Row("2", 1), Row("1", 2)])
         == Spill([[Row("1", 2), Row("2", 1)]], [Entry(Some(Row("1", 2)), 0), Entry(Some(Row("2", 1)), 0)], 0)
  {
    var r1, r2 := Row("2", 1), Row("1", 2);
    var e1, e2 := Entry(Some(r1), 0), Entry(Some(r2), 0);
    var s1 := Collect(ByFirst, NoNumbers, 2, [r1]);
    assert s1 == Spill([], [e1, Entry(None, 0)], 1) by {
      CollectOneRow();
    }
    assert Collect(ByFirst, NoNumbers, 2, [r1, r2]) == Push(ByFirst, NoNumbers, s1, r2) by {
      assert [r1, r2][..1] == [r1];
    }
    PushSecondRow();
  }

  /** Row "1" fills the buffer holding row "2": the buffer is sorted and spilled. */
  lemma PushSecondRow()
    ensures var r1, r2 := Row("2", 1), Row("1", 2);
      var e1, e2 := Entry(Some(r1), 0), Entry(Some(r2), 0);
      Push(ByFirst, NoNumbers, Spill([], [e1, Entry(None, 0)], 1), r2) == Spill([[r2, r1]], [e2, e1], 0)
  {
    var r1, r2 := Row("2", 1), Row("1", 2);
    var e1, e2 := Entry(Some(r1), 0), Entry(Some(r2), 0);
    assert [e1, Entry(None, 0)][1 := e2] == [e1, e2];
    SortTwoRows();
    assert Recs([e2, e1]) == [r2, r1] by {
      assert [e2, e1][1..] == [e1] && [e1][1..] == [];
    }
  }

  /** The spill state after row "2" with a buffer of two. */
  lemma CollectOneRow()
    ensures Collect(ByFirst, NoNumbers, 2, [Row("2", 1)]) == Spill([], [Entry(Some(Row("2", 1)), 0), Entry(None, 0)], 1)
  {
    var r1 := Row("2", 1);
    var empty := Entry(None, 0);
    assert [r1][..0] == [];
    var s0 := Collect(ByFirst, NoNumbers, 2, []);
    assert s0.buf == [empty, empty];
    assert s0.buf[0 := Entry(Some(r1), 0)] == [Entry(Some(r1), 0), empty];
  }

  /** The spill state after rows "2", "1", "3" with a buffer of two. */
  lemma CollectThreeRows()
    ensures Collect(ByFirst, NoNumbers, 2, [Row("2", 1), Row("1", 2), Row("3", 3)])
         == Spill([[Row("1", 2), Row("2", 1)]], [Entry(Some(Row("3", 3)), 0), Entry(Some(Row("2", 1)), 0)], 1)
  {
    var r1, r2, r3 := Row("2", 1), Row("1", 2), Row("3", 3);
    var e1, e2, e3 := Entry(Some(r1), 0), Entry(Some(r2), 0), Entry(Some(r3), 0);
    var s2 := Collect(ByFirst, NoNumbers, 2, [r1, r2]);
    assert s2 == Spill([[r2, r1]], [e2, e1], 0) by {
      CollectTwoRows();
    }
    assert Collect(ByFirst, NoNumbers, 2, [r1, r2, r3]) == Push(ByFirst, NoNumbers, s2, r3) by {
      assert [r1, r2, r3][..2] == [r1, r2];
    }
    PushThirdRow();
  }

  /** Row "3" pushed after the spill of rows "2" and "1". */
  lemma PushThirdRow()
    ensures var r1, r2, r3 := Row("2", 1), Row("1", 2), Row("3", 3);
      var e1, e2, e3 := Entry(Some(r1), 0), Entry(Some(r2), 0), Entry(Some(r3), 0);
      Push(ByFirst, NoNumbers, Spill([[r2, r1]], [e2, e1], 0), r3) == Spill([[r2, r1]], [e3, e1], 1)
  {
    var r1, r2, r3 := Row("2", 1), Row("1", 2), Row("3", 3);
    var e1, e2, e3 := Entry(Some(r1), 0), Entry(Some(r2), 0), Entry(Some(r3), 0);
    assert [e2, e1][0 := e3] == [e3, e1];
  }

  /** As written, the last run of the example is the first entry of the whole buffer, sorted. */
  lemma LastRunAsWritten()
    ensures Runs(ByFirst, NoNumbers, 2, [Row("2", 1), Row("1", 2), Row("3", 3)], false)
         == [[Row("1", 2), Row("2", 1)], [Row("2", 1)]]
  {
    var r1, r2, r3 := Row("2", 1), Row("1", 2), Row("3", 3);
    var e1, e3 := Entry(Some(r1), 0), Entry(Some(r3), 0);
    var st := Collect(ByFirst, NoNumbers, 2, [r1, r2, r3]);
    assert st == Spill([[r2, r1]], [e3, e1], 1) by {
      CollectThreeRows();
    }
    SortStaleBuffer();
    assert FinalRuns(ByFirst, NoNumbers, st, false) == [[r2, r1], [r1]];
  }

  /** The example's buffer at the end, sorted whole: row "2" of the previous run comes first. */
  lemma SortStaleBuffer()
    ensures var e1, e3 := Entry(Some(Row("2", 1)), 0), Entry(Some(Row("3", 3)), 0);
      Recs(SortEntries(ByFirst, NoNumbers, [e3, e1])[..1]) == [Row("2", 1)]
  {
    var r1, r3 := Row("2", 1), Row("3", 3);
    var e1, e3 := Entry(Some(r1), 0), Entry(Some(r3), 0);
    assert Before(ByFirst, NoNumbers, e1, e3) by {
      assert Cell(r1, 0) == "2" && Cell(r3, 0) == "3";
      assert LexLess("2", "3");
    }
    SortPair(ByFirst, NoNumbers, e3, e1);
    assert [e1, e3][..1] == [e1];
    assert [e1][1..] == [];
  }

  /**
   * As written, the last run sorts the whole buffer, whose tail still holds the previous run's
   * entries, and keeps its first `pos`: row "3" is lost and row "2" is written twice.
   */
  lemma SpillLosesRemainder()
    ensures multiset(Flatten(Runs(ByFirst, NoNumbers, 2, [Row("2", 1), Row("1", 2), Row("3", 3)], false)))
         != multiset([Row("2", 1), Row("1", 2), Row("3", 3)])
  {
    var r1, r2, r3 := Row("2", 1), Row("1", 2), Row("3", 3);
    LastRunAsWritten();
    var runs := [[r2, r1], [r1]];
    FlattenPair([r2, r1], [r1]);
    assert [r2, r1] + [r1] == [r2, r1, r1];
    assert r3 != r1 && r3 != r2;
    MissingThird(r1, r2, r3);
  }

  /** A sequence without `z` holds other elements than one with it. */
  lemma MissingThird<T>(x: T, y: T, z: T)
    requires z != x && z != y
    ensures multiset([y, x, x]) != multiset([x, y, z])
  {
    assert z !in multiset([y, x, x]);
  }

  /** Corrected, the last run sorts only the remainder and every row is written once. */
  lemma SpillKeepsRemainder()
    ensures Runs(ByFirst, NoNumbers, 2, [Row("2", 1), Row("1", 2), Row("3", 3)], true)
         == [[Row("1", 2), Row("2", 1)], [Row("3", 3)]]
  {
    var r3 := Row("3", 3);
    var e3 := Entry(Some(r3), 0);
    CollectThreeRows();
    var b := [e3, Entry(Some(Row("2", 1)), 0)];
    assert b[..1] == [e3];
    assert SortEntries(ByFirst, NoNumbers, [e3]) == [e3] by {
      assert [e3][1..] == [];
    }
    assert Recs([e3]) == [r3] by {
      assert [e3][1..] == [];
    }
  }

  // ---------------------------------------------------------------------------------------------
  // The merge of the runs

  /**
   * The state of the merge loop: `sortBuffer`, the run readers (`None` once a reader is closed and
   * set to nil, else the records it has still to read), `validReaders` and the records written.
   */
  datatype Merge = Merge(buf: seq<Entry>, readers: seq<Option<seq<TextRecord>>>, valid: int, out: seq<TextRecord>)

  /** The end of the merge: the records written, and whether it ended in a run-time panic. */
  datatype Merged = Merged(out: seq<TextRecord>, panicked: bool)

  /** One turn of the merge loop: the merge ends, or goes on from a new state. */
  datatype Turn = Finished(result: Merged) | Going(next: Merge)

  /** What a reader has still to give: its records and the end-of-file, nothing once it is closed. */
  function Weight(r: Option<seq<TextRecord>>): nat
  {
    if r.Some? then |r.value| + 1 else 0
  }

  function Pending(rs: seq<Option<seq<TextRecord>>>): nat
  {
    if rs == [] then 0 else Weight(rs[0]) + Pending(rs[1..])
  }

  lemma {:induction false} PendingUpdate(rs: seq<Option<seq<TextRecord>>>, i: nat, x: Option<seq<TextRecord>>)
    requires i < |rs|
    ensures Pending(rs[i := x]) + Weight(rs[i]) == Pending(rs) + Weight(x)
    decreases i
  {
    if i > 0 {
      assert rs[i := x][1..] == rs[1..][i - 1 := x];
      PendingUpdate(rs[1..], i - 1, x);
    }
  }

  /**
   * One turn of the merge loop: `sortBuffer` is sorted and its first entry written; that entry's
   * reader gives the next record, which takes the first place, or the end of its run, which closes
   * the reader and counts it out. As written (`fixed` false) the exhausted entry is cleared on a
   * copy and stays in the buffer; corrected, the buffer's own first entry is cleared. Writing a nil
   * record and reading from a nil reader are run-time panics.
   */
  function MergeStep(keys: seq<ColumnSpec>, parse: string -> Option<real>, st: Merge, fixed: bool): (r: Turn)
    ensures r.Going? ==> Pending(r.next.readers) < Pending(st.readers)
  {
    if st.valid <= 0 then Finished(Merged(st.out, false))
    else if st.buf == [] then Finished(Merged(st.out, true))
    else
      var b := SortEntries(keys, parse, st.buf);
      var low := b[0];
      if low.val.None? then Finished(Merged(st.out, true))
      else
        var out := st.out + [low.val.value];
        var i := low.idx;
        if !(0 <= i < |st.readers|) || st.readers[i].None? then Finished(Merged(out, true))
        else
          var rest := st.readers[i].value;
          if rest == [] then
            PendingUpdate(st.readers, i, None);
            Going(Merge(if fixed then b[0 := Entry(None, i)] else b, st.readers[i := None], st.valid - 1, out))
          else
            PendingUpdate(st.readers, i, Some(rest[1..]));
            Going(Merge(b[0 := Entry(Some(rest[0]), i)], st.readers[i := Some(rest[1..])], st.valid, out))
  }

  /** The merge loop, from state `st` to its end. */
  function MergeFrom(keys: seq<ColumnSpec>, parse: string -> Option<real>, st: Merge, fixed: bool): Merged
    decreases Pending(st.readers)
  {
    match MergeStep(keys, parse, st, fixed)
    case Finished(m) => m
    case Going(next) => MergeFrom(keys, parse, next, fixed)
  }

  /**
   * Opening the runs: each reader gives its first record into `sortBuffer`, tagged with the run's
   * position; a run that gives none (an empty run) is an error.
   */
  function MergeStart(runs: seq<seq<TextRecord>>): (r: Option<Merge>)
    ensures r.Some? ==> |r.value.readers| == |runs| && r.value.out == []
  {
    if runs == [] then Some(Merge([], [], 0, []))
    else
      var n := |runs| - 1;
      var s := MergeStart(runs[..n]);
      if s.None? || runs[n] == [] then None
      else Some(Merge(s.value.buf + [Entry(Some(runs[n][0]), n)], s.value.readers + [Some(runs[n][1..])], s.value.valid + 1, []))
  }

  /** The merge phase of `WriteFile`: `None` when opening a run fails. */
  function MergeRuns(keys: seq<ColumnSpec>, parse: string -> Option<real>, runs: seq<seq<TextRecord>>, fixed: bool)
    : Option<Merged>
  {
    var s := MergeStart(runs);
    if s.None? then None else Some(MergeFrom(keys, parse, s.value, fixed))
  }

  // The corrected merge writes every record of the runs once.

  /** The positions of the readers the non-nil entries came from. */
  function Live(es: seq<Entry>): multiset<int>
  {
    if es == [] then multiset{}
    else (if es[0].val.Some? then multiset{es[0].idx} else multiset{}) + Live(es[1..])
  }

  lemma {:induction false} LiveAppend(a: seq<Entry>, b: seq<Entry>)
    ensures Live(a + b) == Live(a) + Live(b)
    decreases |a|
  {
    if a != [] {
      assert (a + b)[0] == a[0];
      assert (a + b)[1..] == a[1..] + b;
      LiveAppend(a[1..], b);
    } else {
      assert a + b == b;
    }
  }

  /** Permuting the entries permutes their positions. */
  lemma {:induction false} LivePermutation(s: seq<Entry>, t: seq<Entry>)
    requires multiset(s) == multiset(t)
    ensures Live(s) == Live(t)
    decreases |s|
  {
    if s != [] {
      var k := PickOut(s, t);
      var l, m, r := t[..k], [s[0]], t[k + 1..];
      LivePermutation(s[1..], l + r);
      LiveAppend(l + m, r);
      LiveAppend(l, m);
      LiveAppend(l, r);
      assert Live(s) == Live(m) + Live(s[1..]) by {
        assert m[1..] == [];
      }
      Middle(Live(l), Live(m), Live(r));
    }
  }

  /** Every non-nil entry gives one record and one position. */
  lemma {:induction false} RecsLive(s: seq<Entry>)
    ensures |Recs(s)| == |Live(s)|
    ensures Live(s) == multiset{} ==> Recs(s) == []
    decreases |s|
  {
    if s != [] {
      RecsLive(s[1..]);
    }
  }

  /** A seq split around position `j`. */
  lemma Around(s: seq<Entry>, j: nat, e: Entry)
    requires j < |s|
    ensures s == s[..j] + [s[j]] + s[j + 1..]
    ensures s[j := e] == s[..j] + [e] + s[j + 1..]
  {
  }

  /** Replacing one entry replaces its record. */
  lemma EntryRecs(s: seq<Entry>, j: nat, e: Entry)
    requires j < |s|
    ensures multiset(Recs(s[j := e])) + multiset(Recs([s[j]])) == multiset(Recs(s)) + multiset(Recs([e]))
  {
    Around(s, j, e);
    RecsAppend(s[..j] + [s[j]], s[j + 1..]);
    RecsAppend(s[..j], [s[j]]);
    RecsAppend(s[..j] + [e], s[j + 1..]);
    RecsAppend(s[..j], [e]);
  }

  /** Replacing one entry replaces its position. */
  lemma EntryLive(s: seq<Entry>, j: nat, e: Entry)
    requires j < |s|
    ensures Live(s[j := e]) + Live([s[j]]) == Live(s) + Live([e])
  {
    Around(s, j, e);
    LiveAppend(s[..j] + [s[j]], s[j + 1..]);
    LiveAppend(s[..j], [s[j]]);
    LiveAppend(s[..j] + [e], s[j + 1..]);
    LiveAppend(s[..j], [e]);
  }

  /** The position `i` of a reader, when it is open. */
  function OpenMark(r: Option<seq<TextRecord>>, i: int): multiset<int>
  {
    if r.Some? then multiset{i} else multiset{}
  }

  /** The positions of the open readers among the first `k`. */
  function OpenedTo(rs: seq<Option<seq<TextRecord>>>, k: nat): multiset<int>
    requires k <= |rs|
  {
    if k == 0 then multiset{} else OpenedTo(rs, k - 1) + OpenMark(rs[k - 1], k - 1)
  }

  /** The positions of the open readers. */
  function Opened(rs: seq<Option<seq<TextRecord>>>): multiset<int>
  {
    OpenedTo(rs, |rs|)
  }

  /** The records a reader has still to read. */
  function Left(r: Option<seq<TextRecord>>): multiset<TextRecord>
  {
    if r.Some? then multiset(r.value) else multiset{}
  }

  /** The records the first `k` readers have still to read. */
  function UnreadTo(rs: seq<Option<seq<TextRecord>>>, k: nat): multiset<TextRecord>
    requires k <= |rs|
  {
    if k == 0 then multiset{} else UnreadTo(rs, k - 1) + Left(rs[k - 1])
  }

  /** The records the readers have still to read. */
  function Unread(rs: seq<Option<seq<TextRecord>>>): multiset<TextRecord>
  {
    UnreadTo(rs, |rs|)
  }

  /** Adding the same to both sides of an equation of multisets. */
  lemma Shift<T>(a: multiset<T>, b: multiset<T>, c: multiset<T>, d: multiset<T>, k: multiset<T>)
    requires a + b == c + d
    ensures (a + k) + b == (c + k) + d
  {
    forall o
      ensures ((a + k) + b)[o] == ((c + k) + d)[o]
    {
      assert (a + b)[o] == (c + d)[o];
    }
  }

  /** Two multisets added in either order. */
  lemma Swap<T>(a: multiset<T>, p: multiset<T>, q: multiset<T>)
    ensures (a + q) + p == (a + p) + q
  {
    forall o
      ensures ((a + q) + p)[o] == ((a + p) + q)[o]
    {
    }
  }

  /** Taking the same from both sides of an equation of multisets. */
  lemma Cancel<T>(a: multiset<T>, c: multiset<T>, k: multiset<T>)
    requires a + k == c + k
    ensures a == c
  {
    forall o
      ensures a[o] == c[o]
    {
      assert (a + k)[o] == (c + k)[o];
    }
  }

  /** Readers below `i` are not touched by giving reader `i` a new state. */
  lemma {:induction false} OpenedBelow(rs: seq<Option<seq<TextRecord>>>, i: nat, x: Option<seq<TextRecord>>, k: nat)
    requires k <= i < |rs|
    ensures OpenedTo(rs[i := x], k) == OpenedTo(rs, k)
    ensures UnreadTo(rs[i := x], k) == UnreadTo(rs, k)
  {
    if k > 0 {
      OpenedBelow(rs, i, x, k - 1);
      assert rs[i := x][k - 1] == rs[k - 1];
    }
  }

  /** Giving reader `i` a new state, counted over the first `k` readers, `k` above `i`. */
  lemma {:induction false} ReaderAbove(rs: seq<Option<seq<TextRecord>>>, i: nat, x: Option<seq<TextRecord>>, k: nat)
    requires i < k <= |rs|
    ensures OpenedTo(rs[i := x], k) + OpenMark(rs[i], i) == OpenedTo(rs, k) + OpenMark(x, i)
    ensures UnreadTo(rs[i := x], k) + Left(rs[i]) == UnreadTo(rs, k) + Left(x)
  {
    if k - 1 == i {
      OpenedBelow(rs, i, x, i);
      Swap(OpenedTo(rs, i), OpenMark(rs[i], i), OpenMark(x, i));
      Swap(UnreadTo(rs, i), Left(rs[i]), Left(x));
    } else {
      ReaderAbove(rs, i, x, k - 1);
      assert rs[i := x][k - 1] == rs[k - 1];
      Shift(OpenedTo(rs[i := x], k - 1), OpenMark(rs[i], i), OpenedTo(rs, k - 1), OpenMark(x, i), OpenMark(rs[k - 1], k - 1));
      Shift(UnreadTo(rs[i := x], k - 1), Left(rs[i]), UnreadTo(rs, k - 1), Left(x), Left(rs[k - 1]));
    }
  }

  /** Giving reader `i` a new state: the open positions. */
  lemma OpenedUpdate(rs: seq<Option<seq<TextRecord>>>, i: nat, x: Option<seq<TextRecord>>)
    requires i < |rs|
    ensures Opened(rs[i := x]) + OpenMark(rs[i], i) == Opened(rs) + OpenMark(x, i)
  {
    ReaderAbove(rs, i, x, |rs|);
  }

  /** Giving reader `i` a new state: the records left. */
  lemma UnreadUpdate(rs: seq<Option<seq<TextRecord>>>, i: nat, x: Option<seq<TextRecord>>)
    requires i < |rs|
    ensures Unread(rs[i := x]) + Left(rs[i]) == Unread(rs) + Left(x)
  {
    ReaderAbove(rs, i, x, |rs|);
  }

  /** Only an open reader's position is among the open ones. */
  lemma {:induction false} OpenedMember(rs: seq<Option<seq<TextRecord>>>, i: int, k: nat)
    requires k <= |rs| && i in OpenedTo(rs, k)
    ensures 0 <= i < k && rs[i].Some?
  {
    if i !in OpenMark(rs[k - 1], k - 1) {
      OpenedMember(rs, i, k - 1);
    }
  }

  /** No reader open: nothing left to read. */
  lemma {:induction false} UnreadClosed(rs: seq<Option<seq<TextRecord>>>, k: nat)
    requires k <= |rs| && OpenedTo(rs, k) == multiset{}
    ensures UnreadTo(rs, k) == multiset{}
  {
    if k > 0 {
      UnreadClosed(rs, k - 1);
    }
  }

  /** A reader added after the first `k` does not change them. */
  lemma {:induction false} ReaderPrefix(rs: seq<Option<seq<TextRecord>>>, r: Option<seq<TextRecord>>, k: nat)
    requires k <= |rs|
    ensures OpenedTo(rs + [r], k) == OpenedTo(rs, k)
    ensures UnreadTo(rs + [r], k) == UnreadTo(rs, k)
  {
    if k > 0 {
      ReaderPrefix(rs, r, k - 1);
      assert (rs + [r])[k - 1] == rs[k - 1];
    }
  }

  /** One more reader, open, with `v` still to read. */
  lemma ReaderSnoc(rs: seq<Option<seq<TextRecord>>>, v: seq<TextRecord>)
    ensures Opened(rs + [Some(v)]) == Opened(rs) + multiset{|rs|}
    ensures Unread(rs + [Some(v)]) == Unread(rs) + multiset(v)
  {
    ReaderPrefix(rs, Some(v), |rs|);
    assert (rs + [Some(v)])[|rs|] == Some(v);
  }

  /**
   * The merge loop's invariant, `total` being the records of all the runs: the non-nil entries of
   * the buffer are exactly one per open reader, `validReaders` counts them, and the records written,
   * in the buffer and still to be read make up `total`.
   */
  predicate MergeInv(total: multiset<TextRecord>, st: Merge)
  {
    && Live(st.buf) == Opened(st.readers)
    && st.valid == |Live(st.buf)|
    && multiset(st.out) + multiset(Recs(st.buf)) + Unread(st.readers) == total
  }

  /** A buffer with a non-nil entry sorts one to the front. */
  lemma SortedFront(keys: seq<ColumnSpec>, parse: string -> Option<real>, buf: seq<Entry>)
    requires |Live(buf)| > 0
    ensures var b := SortEntries(keys, parse, buf);
      b != [] && b[0].val.Some? && b[0].idx in Live(buf)
  {
    var b := SortEntries(keys, parse, buf);
    LivePermutation(b, buf);
    SortNilLast(keys, parse, buf);
    NonNilWitness(b);
    var j :| 0 <= j < |b| && b[j].val.Some?;
    if j > 0 {
      assert b[j].val.Some? ==> b[0].val.Some?;
    }
  }

  /** A sequence with a non-nil entry has one at some position. */
  lemma {:induction false} NonNilWitness(s: seq<Entry>)
    requires |Live(s)| > 0
    ensures exists j :: 0 <= j < |s| && s[j].val.Some?
    decreases |s|
  {
    if s[0].val.None? {
      NonNilWitness(s[1..]);
      var j :| 0 <= j < |s[1..]| && s[1..][j].val.Some?;
      assert s[j + 1].val.Some?;
    }
  }

  /** The balance of records across one turn, as multisets. */
  lemma Rebalance(total: multiset<TextRecord>, out: multiset<TextRecord>, h: multiset<TextRecord>,
                  inBuf: multiset<TextRecord>, inBuf': multiset<TextRecord>, x: multiset<TextRecord>,
                  toRead: multiset<TextRecord>, toRead': multiset<TextRecord>, was: multiset<TextRecord>)
    requires out + inBuf + toRead == total
    requires inBuf' + h == inBuf + x
    requires toRead' + was == toRead + (was - x) && x <= was
    ensures (out + h) + inBuf' + toRead' == total
  {
    forall o
      ensures ((out + h) + inBuf' + toRead')[o] == total[o]
    {
      assert (was - x)[o] == was[o] - x[o];
      assert (toRead' + was)[o] == (toRead + (was - x))[o];
      assert (inBuf' + h)[o] == (inBuf + x)[o];
      assert (out + inBuf + toRead)[o] == total[o];
    }
  }

  /** The first entry of the sorted buffer replaced by `e`: the records. */
  lemma FrontRecs(buf: seq<Entry>, b: seq<Entry>, e: Entry)
    requires multiset(b) == multiset(buf) && b != [] && b[0].val.Some?
    ensures multiset(Recs(b[0 := e])) + multiset{b[0].val.value} == multiset(Recs(buf)) + multiset(Recs([e]))
  {
    RecsPermutation(b, buf);
    EntryRecs(b, 0, e);
    assert Recs([b[0]]) == [b[0].val.value];
  }

  /** The first entry of the sorted buffer replaced by `e`: the positions. */
  lemma FrontLive(buf: seq<Entry>, b: seq<Entry>, e: Entry)
    requires multiset(b) == multiset(buf) && b != [] && b[0].val.Some?
    ensures Live(b[0 := e]) + multiset{b[0].idx} == Live(buf) + Live([e])
  {
    LivePermutation(b, buf);
    EntryLive(b, 0, e);
    assert Live([b[0]]) == multiset{b[0].idx};
  }

  /** A turn that reads the next record of reader `i` keeps the positions as they were. */
  lemma AdvanceTags(buf: seq<Entry>, readers: seq<Option<seq<TextRecord>>>, b: seq<Entry>, i: int, rest: seq<TextRecord>)
    requires multiset(b) == multiset(buf) && b != [] && b[0].val.Some? && b[0].idx == i
    requires 0 <= i < |readers| && readers[i] == Some(rest) && rest != []
    ensures Live(b[0 := Entry(Some(rest[0]), i)]) == Live(buf)
    ensures Opened(readers[i := Some(rest[1..])]) == Opened(readers)
  {
    var e := Entry(Some(rest[0]), i);
    FrontLive(buf, b, e);
    assert Live([e]) == multiset{i};
    Cancel(Live(b[0 := e]), Live(buf), multiset{i});
    OpenedUpdate(readers, i, Some(rest[1..]));
    assert OpenMark(readers[i], i) == multiset{i} == OpenMark(Some(rest[1..]), i);
    Cancel(Opened(readers[i := Some(rest[1..])]), Opened(readers), multiset{i});
  }

  /** A turn that reads the next record of reader `i` keeps every record accounted for. */
  lemma AdvanceBalance(total: multiset<TextRecord>, out: seq<TextRecord>, buf: seq<Entry>,
                       readers: seq<Option<seq<TextRecord>>>, b: seq<Entry>, i: int, rest: seq<TextRecord>)
    requires multiset(out) + multiset(Recs(buf)) + Unread(readers) == total
    requires multiset(b) == multiset(buf) && b != [] && b[0].val.Some?
    requires 0 <= i < |readers| && readers[i] == Some(rest) && rest != []
    ensures multiset(out + [b[0].val.value]) + multiset(Recs(b[0 := Entry(Some(rest[0]), i)]))
            + Unread(readers[i := Some(rest[1..])]) == total
  {
    var h := b[0].val.value;
    var e := Entry(Some(rest[0]), i);
    FrontRecs(buf, b, e);
    assert Recs([e]) == [rest[0]];
    UnreadUpdate(readers, i, Some(rest[1..]));
    assert Left(readers[i]) == multiset(rest) && Left(Some(rest[1..])) == multiset(rest[1..]);
    assert multiset(rest) - multiset{rest[0]} == multiset(rest[1..]) by {
      assert rest == [rest[0]] + rest[1..];
    }
    Rebalance(total, multiset(out), multiset{h}, multiset(Recs(buf)), multiset(Recs(b[0 := e])), multiset{rest[0]},
              Unread(readers), Unread(readers[i := Some(rest[1..])]), multiset(rest));
    assert multiset(out + [h]) == multiset(out) + multiset{h};
  }

  /** A turn that reads the next record of reader `i` keeps the invariant. */
  lemma AdvanceKeeps(total: multiset<TextRecord>, st: Merge, b: seq<Entry>, i: int, rest: seq<TextRecord>)
    requires MergeInv(total, st) && multiset(b) == multiset(st.buf)
    requires b != [] && b[0].val.Some? && b[0].idx == i && 0 <= i < |st.readers| && st.readers[i] == Some(rest)
    requires rest != []
    ensures MergeInv(total, Merge(b[0 := Entry(Some(rest[0]), i)], st.readers[i := Some(rest[1..])], st.valid,
                                  st.out + [b[0].val.value]))
  {
    AdvanceTags(st.buf, st.readers, b, i, rest);
    AdvanceBalance(total, st.out, st.buf, st.readers, b, i, rest);
  }

  /** A turn that meets the end of reader `i` drops its position from the buffer and the readers. */
  lemma CloseTags(buf: seq<Entry>, readers: seq<Option<seq<TextRecord>>>, b: seq<Entry>, i: int)
    requires multiset(b) == multiset(buf) && b != [] && b[0].val.Some? && b[0].idx == i
    requires 0 <= i < |readers| && readers[i] == Some([])
    ensures Live(b[0 := Entry(None, i)]) + multiset{i} == Live(buf)
    ensures Opened(readers[i := None]) + multiset{i} == Opened(readers)
  {
    var e := Entry(None, i);
    FrontLive(buf, b, e);
    assert Live([e]) == multiset{};
    Cancel(Live(b[0 := e]) + multiset{i}, Live(buf), multiset{});
    OpenedUpdate(readers, i, None);
    assert OpenMark(readers[i], i) == multiset{i} && OpenMark(None, i) == multiset{};
    Cancel(Opened(readers[i := None]) + multiset{i}, Opened(readers), multiset{});
  }

  /** A turn that meets the end of reader `i` keeps every record accounted for. */
  lemma CloseBalance(total: multiset<TextRecord>, out: seq<TextRecord>, buf: seq<Entry>,
                     readers: seq<Option<seq<TextRecord>>>, b: seq<Entry>, i: int)
    requires multiset(out) + multiset(Recs(buf)) + Unread(readers) == total
    requires multiset(b) == multiset(buf) && b != [] && b[0].val.Some?
    requires 0 <= i < |readers| && readers[i] == Some([])
    ensures multiset(out + [b[0].val.value]) + multiset(Recs(b[0 := Entry(None, i)])) + Unread(readers[i := None]) == total
  {
    var h := b[0].val.value;
    var e := Entry(None, i);
    FrontRecs(buf, b, e);
    assert Recs([e]) == [];
    UnreadUpdate(readers, i, None);
    assert Left(readers[i]) == multiset{} && Left(None) == multiset{};
    Cancel(Unread(readers[i := None]), Unread(readers), multiset{});
    Cancel(multiset(Recs(b[0 := e])) + multiset{h}, multiset(Recs(buf)), multiset{});
    Close(total, multiset(out), multiset{h}, multiset(Recs(buf)), multiset(Recs(b[0 := e])), Unread(readers));
    assert multiset(out + [h]) == multiset(out) + multiset{h};
  }

  /** The balance of records across a turn that closes a reader, as multisets. */
  lemma Close(total: multiset<TextRecord>, out: multiset<TextRecord>, h: multiset<TextRecord>,
              inBuf: multiset<TextRecord>, inBuf': multiset<TextRecord>, toRead: multiset<TextRecord>)
    requires out + inBuf + toRead == total
    requires inBuf' + h == inBuf
    ensures (out + h) + inBuf' + toRead == total
  {
    forall o
      ensures ((out + h) + inBuf' + toRead)[o] == total[o]
    {
      assert (inBuf' + h)[o] == inBuf[o];
      assert (out + inBuf + toRead)[o] == total[o];
    }
  }

  /** A turn that meets the end of reader `i` keeps the invariant, when the entry is cleared in the buffer. */
  lemma CloseKeeps(total: multiset<TextRecord>, st: Merge, b: seq<Entry>, i: int)
    requires MergeInv(total, st) && multiset(b) == multiset(st.buf)
    requires b != [] && b[0].val.Some? && b[0].idx == i && 0 <= i < |st.readers| && st.readers[i] == Some([])
    ensures MergeInv(total, Merge(b[0 := Entry(None, i)], st.readers[i := None], st.valid - 1, st.out + [b[0].val.value]))
  {
    var b', readers := b[0 := Entry(None, i)], st.readers[i := None];
    CloseTags(st.buf, st.readers, b, i);
    Cancel(Live(b'), Opened(readers), multiset{i});
    assert |Live(b') + multiset{i}| == |Live(b')| + 1;
    CloseBalance(total, st.out, st.buf, st.readers, b, i);
  }

  /** A turn of the corrected merge with readers open goes on, keeping the invariant. */
  lemma StepKeeps(keys: seq<ColumnSpec>, parse: string -> Option<real>, total: multiset<TextRecord>, st: Merge)
    requires MergeInv(total, st) && st.valid > 0
    ensures MergeStep(keys, parse, st, true).Going?
    ensures MergeInv(total, MergeStep(keys, parse, st, true).next)
  {
    var b := SortEntries(keys, parse, st.buf);
    SortedFront(keys, parse, st.buf);
    var i := b[0].idx;
    OpenedMember(st.readers, i, |st.readers|);
    var rest := st.readers[i].value;
    if rest == [] {
      CloseKeeps(total, st, b, i);
    } else {
      AdvanceKeeps(total, st, b, i, rest);
    }
  }

  /** At the end of the corrected merge everything has been written. */
  lemma EndKeeps(total: multiset<TextRecord>, st: Merge)
    requires MergeInv(total, st) && st.valid <= 0
    ensures multiset(st.out) == total
  {
    RecsLive(st.buf);
    UnreadClosed(st.readers, |st.readers|);
  }

  /**
   * The corrected merge loop from a state keeping the invariant never panics and writes `total`;
   * from a state keeping the ordering invariant too, it writes the records in order.
   */
  lemma {:induction false} MergeFromCorrect(keys: seq<ColumnSpec>, parse: string -> Option<real>,
                                            total: multiset<TextRecord>, st: Merge)
    requires MergeInv(total, st)
    ensures !MergeFrom(keys, parse, st, true).panicked
    ensures multiset(MergeFrom(keys, parse, st, true).out) == total
    ensures OrderInv(keys, parse, st) ==> Ordered(keys, parse, MergeFrom(keys, parse, st, true).out)
    decreases Pending(st.readers)
  {
    if st.valid <= 0 {
      EndKeeps(total, st);
    } else {
      StepKeeps(keys, parse, total, st);
      if OrderInv(keys, parse, st) {
        OrderStep(keys, parse, total, st);
      }
      MergeFromCorrect(keys, parse, total, MergeStep(keys, parse, st, true).next);
    }
  }

  /** Opening non-empty runs succeeds, in a state keeping the invariant for all their records. */
  lemma {:induction false} StartKeeps(runs: seq<seq<TextRecord>>)
    requires [] !in runs
    ensures MergeStart(runs).Some?
    ensures MergeInv(multiset(Flatten(runs)), MergeStart(runs).value)
    decreases |runs|
  {
    if runs == [] {
      assert MergeStart(runs) == Some(Merge([], [], 0, []));
    } else {
      var n := |runs| - 1;
      StartKeeps(runs[..n]);
      StartStep(runs, MergeStart(runs[..n]).value);
    }
  }

  /** Opening one more run: the positions. */
  lemma StartTags(buf: seq<Entry>, readers: seq<Option<seq<TextRecord>>>, v: seq<TextRecord>)
    requires Live(buf) == Opened(readers) && v != []
    ensures Live(buf + [Entry(Some(v[0]), |readers|)]) == Opened(readers + [Some(v[1..])])
    ensures |Live(buf + [Entry(Some(v[0]), |readers|)])| == |Live(buf)| + 1
  {
    var e := Entry(Some(v[0]), |readers|);
    LiveAppend(buf, [e]);
    assert Live([e]) == multiset{|readers|};
    ReaderSnoc(readers, v[1..]);
  }

  /** Opening one more run: the records. */
  lemma StartBalance(total: multiset<TextRecord>, buf: seq<Entry>, readers: seq<Option<seq<TextRecord>>>, v: seq<TextRecord>)
    requires multiset([]) + multiset(Recs(buf)) + Unread(readers) == total && v != []
    ensures multiset([]) + multiset(Recs(buf + [Entry(Some(v[0]), |readers|)])) + Unread(readers + [Some(v[1..])])
            == total + multiset(v)
  {
    var e := Entry(Some(v[0]), |readers|);
    RecsAppend(buf, [e]);
    assert Recs([e]) == [v[0]];
    ReaderSnoc(readers, v[1..]);
    assert multiset(v) == multiset{v[0]} + multiset(v[1..]) by {
      assert v == [v[0]] + v[1..];
    }
    Grow(total, multiset(Recs(buf)), Unread(readers), multiset{v[0]}, multiset(v[1..]));
  }

  /** Records added to the buffer and to the readers, as multisets. */
  lemma Grow<T>(total: multiset<T>, inBuf: multiset<T>, toRead: multiset<T>, x: multiset<T>, y: multiset<T>)
    requires multiset{} + inBuf + toRead == total
    ensures multiset{} + (inBuf + x) + (toRead + y) == total + (x + y)
  {
    forall o
      ensures (multiset{} + (inBuf + x) + (toRead + y))[o] == (total + (x + y))[o]
    {
      assert (multiset{} + inBuf + toRead)[o] == total[o];
    }
  }

  /** Opening one more, non-empty, run. */
  lemma StartSnoc(runs: seq<seq<TextRecord>>, s: Merge)
    requires runs != [] && runs[|runs| - 1] != []
    requires MergeStart(runs[..|runs| - 1]) == Some(s)
    ensures var n := |runs| - 1;
      MergeStart(runs) == Some(Merge(s.buf + [Entry(Some(runs[n][0]), n)], s.readers + [Some(runs[n][1..])], s.valid + 1, []))
  {
  }

  /** Opening one more run keeps the invariant of the merge loop. */
  lemma StartStep(runs: seq<seq<TextRecord>>, s: Merge)
    requires runs != [] && runs[|runs| - 1] != []
    requires MergeStart(runs[..|runs| - 1]) == Some(s)
    requires MergeInv(multiset(Flatten(runs[..|runs| - 1])), s)
    ensures MergeStart(runs).Some?
    ensures MergeInv(multiset(Flatten(runs)), MergeStart(runs).value)
  {
    var n := |runs| - 1;
    var t := Merge(s.buf + [Entry(Some(runs[n][0]), n)], s.readers + [Some(runs[n][1..])], s.valid + 1, []);
    StartSnoc(runs, s);
    StartTags(s.buf, s.readers, runs[n]);
    assert Live(t.buf) == Opened(t.readers) && t.valid == |Live(t.buf)|;
    assert multiset(s.out) == multiset([]);
    StartBalance(multiset(Flatten(runs[..n])), s.buf, s.readers, runs[n]);
    assert multiset(Flatten(runs)) == multiset(Flatten(runs[..n])) + multiset(runs[n]);
    assert multiset(t.out) + multiset(Recs(t.buf)) + Unread(t.readers) == multiset(Flatten(runs));
  }

  /**
   * The corrected merge of non-empty runs never panics and writes every record of the runs once;
   * when every run is ordered, so is what it writes.
   */
  lemma MergeRunsCorrect(keys: seq<ColumnSpec>, parse: string -> Option<real>, runs: seq<seq<TextRecord>>)
    requires [] !in runs
    ensures MergeRuns(keys, parse, runs, true).Some?
    ensures !MergeRuns(keys, parse, runs, true).value.panicked
    ensures multiset(MergeRuns(keys, parse, runs, true).value.out) == multiset(Flatten(runs))
    ensures (forall k :: 0 <= k < |runs| ==> Ordered(keys, parse, runs[k]))
            ==> Ordered(keys, parse, MergeRuns(keys, parse, runs, true).value.out)
  {
    StartKeeps(runs);
    if forall k :: 0 <= k < |runs| ==> Ordered(keys, parse, runs[k]) {
      StartOrdered(keys, parse, runs);
    }
    MergeFromCorrect(keys, parse, multiset(Flatten(runs)), MergeStart(runs).value);
  }

  // The corrected merge of ordered runs writes the records in order.

  /** Every non-nil entry of the buffer is comparable and comes from one of the `n` readers. */
  predicate EntriesOk(keys: seq<ColumnSpec>, parse: string -> Option<real>, buf: seq<Entry>, n: nat)
  {
    forall e :: e in buf && e.val.Some? ==> Comparable(keys, parse, e.val.value) && 0 <= e.idx < n
  }

  /** Every open reader has its records still to read in order. */
  predicate ReadersOrdered(keys: seq<ColumnSpec>, parse: string -> Option<real>, rs: seq<Option<seq<TextRecord>>>)
  {
    forall i :: 0 <= i < |rs| && rs[i].Some? ==> Ordered(keys, parse, rs[i].value)
  }

  /** No record an open reader has still to read is less than the entry it gave to the buffer. */
  predicate HeadsBelow(keys: seq<ColumnSpec>, parse: string -> Option<real>, buf: seq<Entry>,
                       rs: seq<Option<seq<TextRecord>>>)
  {
    forall e :: e in buf && e.val.Some? && 0 <= e.idx < |rs| && rs[e.idx].Some?
      ==> HeadBelow(keys, parse, e.val.value, rs[e.idx].value)
  }

  /** No entry of the buffer is less than the last record written. */
  predicate Floor(keys: seq<ColumnSpec>, parse: string -> Option<real>, out: seq<TextRecord>, buf: seq<Entry>)
  {
    out != [] ==> forall e :: e in buf && e.val.Some? ==> Le(keys, parse, out[|out| - 1], e.val.value)
  }

  /**
   * The merge loop's ordering invariant: what is written is ordered, nothing in the buffer or still
   * to be read is less than the last record written, and each reader gives its records in order.
   */
  predicate OrderInv(keys: seq<ColumnSpec>, parse: string -> Option<real>, st: Merge)
  {
    && Ordered(keys, parse, st.out)
    && EntriesOk(keys, parse, st.buf, |st.readers|)
    && ReadersOrdered(keys, parse, st.readers)
    && HeadsBelow(keys, parse, st.buf, st.readers)
    && Floor(keys, parse, st.out, st.buf)
  }

  /** An entry of a sequence whose first entry was replaced by `x`. */
  lemma InFront(b: seq<Entry>, x: Entry, e: Entry)
    requires b != [] && e in b[0 := x]
    ensures e == x || e in b
  {
    var k :| 0 <= k < |b| && b[0 := x][k] == e;
    if k > 0 {
      assert b[k] == e;
    }
  }

  /** The first entry of the sorted buffer is comparable and not after any non-nil entry. */
  lemma FrontLeast(keys: seq<ColumnSpec>, parse: string -> Option<real>, buf: seq<Entry>, n: nat)
    requires EntriesOk(keys, parse, buf, n)
    requires SortEntries(keys, parse, buf) != [] && SortEntries(keys, parse, buf)[0].val.Some?
    ensures SortEntries(keys, parse, buf)[0] in buf
    ensures var b := SortEntries(keys, parse, buf);
      forall e :: e in b && e.val.Some? ==> Le(keys, parse, b[0].val.value, e.val.value)
  {
    var b := SortEntries(keys, parse, buf);
    forall i | 0 <= i < |buf|
      ensures EntryComparable(keys, parse, buf[i])
    {
      assert buf[i] in buf;
    }
    SortSorted(keys, parse, buf);
    assert b[0] in multiset(b);
    forall e | e in b && e.val.Some?
      ensures Le(keys, parse, b[0].val.value, e.val.value)
    {
      var k :| 0 <= k < |b| && b[k] == e;
      if k == 0 {
        LeReflexive(keys, parse, e.val.value);
      } else {
        assert !Before(keys, parse, b[k], b[0]);
      }
    }
  }

  /**
   * Writing the first entry of the sorted buffer and putting `x` in its place keeps what is
   * written ordered and the buffer at or above it, when `x` is not less than the record written.
   */
  lemma FrontReplaced(keys: seq<ColumnSpec>, parse: string -> Option<real>, st: Merge, x: Entry)
    requires OrderInv(keys, parse, st)
    requires SortEntries(keys, parse, st.buf) != [] && SortEntries(keys, parse, st.buf)[0].val.Some?
    requires x.val.Some? ==> && Comparable(keys, parse, x.val.value) && 0 <= x.idx < |st.readers|
                             && Le(keys, parse, SortEntries(keys, parse, st.buf)[0].val.value, x.val.value)
    ensures var b := SortEntries(keys, parse, st.buf);
      && Ordered(keys, parse, st.out + [b[0].val.value])
      && EntriesOk(keys, parse, b[0 := x], |st.readers|)
      && Floor(keys, parse, st.out + [b[0].val.value], b[0 := x])
  {
    var b := SortEntries(keys, parse, st.buf);
    var h := b[0].val.value;
    FrontLeast(keys, parse, st.buf, |st.readers|);
    OrderedSnoc(keys, parse, st.out, h);
    forall e | e in b[0 := x] && e.val.Some?
      ensures Comparable(keys, parse, e.val.value) && 0 <= e.idx < |st.readers| && Le(keys, parse, h, e.val.value)
    {
      InFront(b, x, e);
      if e != x {
        assert e in multiset(b);
      }
    }
  }

  /** Reading the next record of reader `i` into the first place keeps each reader's records above its entries. */
  lemma AdvanceHeads(keys: seq<ColumnSpec>, parse: string -> Option<real>, buf: seq<Entry>, b: seq<Entry>,
                     rs: seq<Option<seq<TextRecord>>>, i: nat, rest: seq<TextRecord>)
    requires HeadsBelow(keys, parse, buf, rs) && multiset(b) == multiset(buf) && b != []
    requires i < |rs| && rs[i] == Some(rest) && rest != [] && Ordered(keys, parse, rest)
    ensures HeadsBelow(keys, parse, b[0 := Entry(Some(rest[0]), i)], rs[i := Some(rest[1..])])
  {
    var x := Entry(Some(rest[0]), i);
    var rs' := rs[i := Some(rest[1..])];
    OrderedTail(keys, parse, rest);
    forall e | e in b[0 := x] && e.val.Some? && 0 <= e.idx < |rs'| && rs'[e.idx].Some?
      ensures HeadBelow(keys, parse, e.val.value, rs'[e.idx].value)
    {
      InFront(b, x, e);
      if e != x {
        assert e in multiset(b);
        if e.idx == i {
          HeadBelowTail(keys, parse, e.val.value, rest);
        }
      }
    }
  }

  /** Closing reader `i` and clearing the first place keeps each reader's records above its entries. */
  lemma CloseHeads(keys: seq<ColumnSpec>, parse: string -> Option<real>, buf: seq<Entry>, b: seq<Entry>,
                   rs: seq<Option<seq<TextRecord>>>, i: nat)
    requires HeadsBelow(keys, parse, buf, rs) && multiset(b) == multiset(buf) && b != [] && i < |rs|
    ensures HeadsBelow(keys, parse, b[0 := Entry(None, i)], rs[i := None])
  {
    var rs' := rs[i := None];
    forall e | e in b[0 := Entry(None, i)] && e.val.Some? && 0 <= e.idx < |rs'| && rs'[e.idx].Some?
      ensures HeadBelow(keys, parse, e.val.value, rs'[e.idx].value)
    {
      InFront(b, Entry(None, i), e);
      assert e in multiset(b);
    }
  }

  /** A turn that meets the end of reader `i` keeps the ordering invariant. */
  lemma OrderClose(keys: seq<ColumnSpec>, parse: string -> Option<real>, st: Merge, i: nat)
    requires OrderInv(keys, parse, st)
    requires var b := SortEntries(keys, parse, st.buf); b != [] && b[0].val.Some? && b[0].idx == i
    requires i < |st.readers| && st.readers[i] == Some([])
    ensures var b := SortEntries(keys, parse, st.buf);
      OrderInv(keys, parse, Merge(b[0 := Entry(None, i)], st.readers[i := None], st.valid - 1, st.out + [b[0].val.value]))
  {
    var b := SortEntries(keys, parse, st.buf);
    FrontReplaced(keys, parse, st, Entry(None, i));
    CloseHeads(keys, parse, st.buf, b, st.readers, i);
    assert ReadersOrdered(keys, parse, st.readers[i := None]);
  }

  /** A turn that reads the next record of reader `i` keeps the ordering invariant. */
  lemma OrderAdvance(keys: seq<ColumnSpec>, parse: string -> Option<real>, st: Merge, i: nat, rest: seq<TextRecord>)
    requires OrderInv(keys, parse, st)
    requires var b := SortEntries(keys, parse, st.buf); b != [] && b[0].val.Some? && b[0].idx == i
    requires i < |st.readers| && st.readers[i] == Some(rest) && rest != []
    ensures var b := SortEntries(keys, parse, st.buf);
      OrderInv(keys, parse, Merge(b[0 := Entry(Some(rest[0]), i)], st.readers[i := Some(rest[1..])], st.valid,
                                  st.out + [b[0].val.value]))
  {
    var b := SortEntries(keys, parse, st.buf);
    FrontLeast(keys, parse, st.buf, |st.readers|);
    assert HeadBelow(keys, parse, b[0].val.value, rest);
    OrderedTail(keys, parse, rest);
    FrontReplaced(keys, parse, st, Entry(Some(rest[0]), i));
    AdvanceHeads(keys, parse, st.buf, b, st.readers, i, rest);
    assert ReadersOrdered(keys, parse, st.readers[i := Some(rest[1..])]);
  }

  /** A turn of the corrected merge with readers open keeps the ordering invariant. */
  lemma OrderStep(keys: seq<ColumnSpec>, parse: string -> Option<real>, total: multiset<TextRecord>, st: Merge)
    requires MergeInv(total, st) && OrderInv(keys, parse, st) && st.valid > 0
    ensures MergeStep(keys, parse, st, true).Going?
    ensures OrderInv(keys, parse, MergeStep(keys, parse, st, true).next)
  {
    var b := SortEntries(keys, parse, st.buf);
    SortedFront(keys, parse, st.buf);
    var i := b[0].idx;
    OpenedMember(st.readers, i, |st.readers|);
    var rest := st.readers[i].value;
    MergeGoing(keys, parse, st, b, rest);
    if rest == [] {
      OrderClose(keys, parse, st, i);
    } else {
      OrderAdvance(keys, parse, st, i, rest);
    }
  }

  /** One more ordered run opened keeps the ordering invariant. */
  lemma StartOrderStep(keys: seq<ColumnSpec>, parse: string -> Option<real>, s: Merge, v: seq<TextRecord>)
    requires OrderInv(keys, parse, s) && s.out == [] && v != [] && Ordered(keys, parse, v)
    ensures OrderInv(keys, parse, Merge(s.buf + [Entry(Some(v[0]), |s.readers|)], s.readers + [Some(v[1..])], s.valid + 1, []))
  {
    var x := Entry(Some(v[0]), |s.readers|);
    var buf, rs := s.buf + [x], s.readers + [Some(v[1..])];
    OrderedTail(keys, parse, v);
    forall e | e in buf && e.val.Some?
      ensures Comparable(keys, parse, e.val.value) && 0 <= e.idx < |rs|
    {
      if e != x {
        assert e in s.buf;
      }
    }
    forall i | 0 <= i < |rs| && rs[i].Some?
      ensures Ordered(keys, parse, rs[i].value)
    {
      if i < |s.readers| {
        assert rs[i] == s.readers[i];
      }
    }
    forall e | e in buf && e.val.Some? && 0 <= e.idx < |rs| && rs[e.idx].Some?
      ensures HeadBelow(keys, parse, e.val.value, rs[e.idx].value)
    {
      if e != x {
        assert e in s.buf;
        assert rs[e.idx] == s.readers[e.idx];
      }
    }
  }

  /** Opening ordered, non-empty runs gives a state keeping the ordering invariant. */
  lemma {:induction false} StartOrdered(keys: seq<ColumnSpec>, parse: string -> Option<real>, runs: seq<seq<TextRecord>>)
    requires [] !in runs && forall k :: 0 <= k < |runs| ==> Ordered(keys, parse, runs[k])
    ensures MergeStart(runs).Some? && OrderInv(keys, parse, MergeStart(runs).value)
    decreases |runs|
  {
    if runs == [] {
      assert MergeStart(runs) == Some(Merge([], [], 0, []));
    } else {
      var n := |runs| - 1;
      assert forall k :: 0 <= k < n ==> runs[..n][k] == runs[k];
      StartOrdered(keys, parse, runs[..n]);
      var s := MergeStart(runs[..n]).value;
      StartSnoc(runs, s);
      StartOrderStep(keys, parse, s, runs[n]);
    }
  }

  // ---------------------------------------------------------------------------------------------
  // The merge on two one-record runs

  /** The two runs `["1"]` and `["2"]` opened: both entries in the buffer, both readers at their end. */
  lemma StartTwoRuns()
    ensures MergeStart([[Row("1", 1)], [Row("2", 2)]])
         == Some(Merge([Entry(Some(Row("1", 1)), 0), Entry(Some(Row("2", 2)), 1)], [Some([]), Some([])], 2, []))
  {
    var x, y := Row("1", 1), Row("2", 2);
    var runs := [[x], [y]];
    assert runs[..1] == [[x]] && [[x]][..0] == [];
    assert [x][1..] == [] && [y][1..] == [];
    var s0 := MergeStart([]);
    assert s0 == Some(Merge([], [], 0, []));
    assert s0.value.buf + [Entry(Some(x), 0)] == [Entry(Some(x), 0)];
    assert s0.value.readers + [Some([])] == [Some([])];
    var s1 := MergeStart([[x]]);
    assert s1 == Some(Merge([Entry(Some(x), 0)], [Some([])], 1, []));
    assert s1.value.buf + [Entry(Some(y), 1)] == [Entry(Some(x), 0), Entry(Some(y), 1)];
    assert s1.value.readers + [Some([])] == [Some([]), Some([])];
  }

  /** The entry of `"1"` stays before that of `"2"`, and a non-nil entry goes before a nil one. */
  lemma SortTwoRuns()
    ensures SortEntries(ByFirst, NoNumbers, [Entry(Some(Row("1", 1)), 0), Entry(Some(Row("2", 2)), 1)])
         == [Entry(Some(Row("1", 1)), 0), Entry(Some(Row("2", 2)), 1)]
    ensures SortEntries(ByFirst, NoNumbers, [Entry(None, 0), Entry(Some(Row("2", 2)), 1)])
         == [Entry(Some(Row("2", 2)), 1), Entry(None, 0)]
  {
    var ex, ey := Entry(Some(Row("1", 1)), 0), Entry(Some(Row("2", 2)), 1);
    assert Cell(Row("1", 1), 0) == "1" && Cell(Row("2", 2), 0) == "2";
    assert !LexLess("2", "1");
    assert !Before(ByFirst, NoNumbers, ey, ex);
    SortPair(ByFirst, NoNumbers, ex, ey);
    SortPair(ByFirst, NoNumbers, Entry(None, 0), ey);
  }

  /** First turn, as written: `"1"` is written and its reader closed, but its entry stays in the buffer. */
  lemma FirstTurnAsWritten()
    ensures MergeStep(ByFirst, NoNumbers,
                      Merge([Entry(Some(Row("1", 1)), 0), Entry(Some(Row("2", 2)), 1)], [Some([]), Some([])], 2, []), false)
         == Going(Merge([Entry(Some(Row("1", 1)), 0), Entry(Some(Row("2", 2)), 1)], [None, Some([])], 1, [Row("1", 1)]))
  {
    SortTwoRuns();
  }

  /** Second turn, as written: the stale entry is written again and then its closed reader panics. */
  lemma SecondTurnAsWritten()
    ensures MergeStep(ByFirst, NoNumbers,
                      Merge([Entry(Some(Row("1", 1)), 0), Entry(Some(Row("2", 2)), 1)], [None, Some([])], 1, [Row("1", 1)]), false)
         == Finished(Merged([Row("1", 1), Row("1", 1)], true))
  {
    SortTwoRuns();
  }

  /** As written, merging `["1"]` and `["2"]` writes `"1"` twice, never writes `"2"`, and panics. */
  lemma MergeDuplicates()
    ensures MergeRuns(ByFirst, NoNumbers, [[Row("1", 1)], [Row("2", 2)]], false)
         == Some(Merged([Row("1", 1), Row("1", 1)], true))
  {
    StartTwoRuns();
    FirstTurnAsWritten();
    SecondTurnAsWritten();
  }

  /** First turn, corrected: the entry of the closed reader is cleared. */
  lemma FirstTurnCorrected()
    ensures MergeStep(ByFirst, NoNumbers,
                      Merge([Entry(Some(Row("1", 1)), 0), Entry(Some(Row("2", 2)), 1)], [Some([]), Some([])], 2, []), true)
         == Going(Merge([Entry(None, 0), Entry(Some(Row("2", 2)), 1)], [None, Some([])], 1, [Row("1", 1)]))
  {
    var ex, ey := Entry(Some(Row("1", 1)), 0), Entry(Some(Row("2", 2)), 1);
    var none: Option<seq<TextRecord>>, empty: Option<seq<TextRecord>> := None, Some([]);
    SortTwoRuns();
    MergeGoingEmpty(ByFirst, NoNumbers, Merge([ex, ey], [empty, empty], 2, []), [ex, ey]);
    SetFirst(ex, ey, Entry(None, 0));
    SetFirst(empty, empty, none);
    assert [] + [Row("1", 1)] == [Row("1", 1)];
  }

  /** Second turn, corrected: `"2"` is written and the last reader closed. */
  lemma SecondTurnCorrected()
    ensures MergeStep(ByFirst, NoNumbers,
                      Merge([Entry(None, 0), Entry(Some(Row("2", 2)), 1)], [None, Some([])], 1, [Row("1", 1)]), true)
         == Going(Merge([Entry(None, 1), Entry(None, 0)], [None, None], 0, [Row("1", 1), Row("2", 2)]))
  {
    var ey := Entry(Some(Row("2", 2)), 1);
    var b := [ey, Entry(None, 0)];
    var none: Option<seq<TextRecord>>, empty: Option<seq<TextRecord>> := None, Some([]);
    SortTwoRuns();
    MergeGoingEmpty(ByFirst, NoNumbers, Merge([Entry(None, 0), ey], [none, empty], 1, [Row("1", 1)]), b);
    SetFirst(ey, Entry(None, 0), Entry(None, 1));
    SetSecond(none, empty, none);
    assert [Row("1", 1)] + [Row("2", 2)] == [Row("1", 1), Row("2", 2)];
  }

  /** The first of two elements replaced. */
  lemma SetFirst<T>(x: T, y: T, z: T)
    ensures [x, y][0 := z] == [z, y]
  {
  }

  /** The second of two elements replaced. */
  lemma SetSecond<T>(x: T, y: T, z: T)
    ensures [x, y][1 := z] == [x, z]
  {
  }

  /** Corrected, merging `["1"]` and `["2"]` writes both, in order, and ends without a panic. */
  lemma MergeKeepsBoth()
    ensures MergeRuns(ByFirst, NoNumbers, [[Row("1", 1)], [Row("2", 2)]], true)
         == Some(Merged([Row("1", 1), Row("2", 2)], false))
  {
    StartTwoRuns();
    FirstTurnCorrected();
    SecondTurnCorrected();
  }

  /**
   * The corrected sort as a whole: spilling the data records into runs and merging them never
   * panics and writes every data record exactly once, and in order when every numeric key parses.
   */
  lemma SortKeepsRecords(keys: seq<ColumnSpec>, parse: string -> Option<real>, n: nat, data: seq<TextRecord>)
    requires n > 0
    ensures MergeRuns(keys, parse, Runs(keys, parse, n, data, true), true).Some?
    ensures !MergeRuns(keys, parse, Runs(keys, parse, n, data, true), true).value.panicked
    ensures multiset(MergeRuns(keys, parse, Runs(keys, parse, n, data, true), true).value.out) == multiset(data)
    ensures RecsComparable(keys, parse, data)
            ==> Ordered(keys, parse, MergeRuns(keys, parse, Runs(keys, parse, n, data, true), true).value.out)
  {
    RunsPermutation(keys, parse, n, data);
    if RecsComparable(keys, parse, data) {
      RunsOrdered(keys, parse, n, data);
    }
    MergeRunsCorrect(keys, parse, Runs(keys, parse, n, data, true));
  }

  // ---------------------------------------------------------------------------------------------
  // Opening the runs

  /** Opening the runs succeeds exactly when none of them is empty. */
  lemma {:induction false} StartNone(runs: seq<seq<TextRecord>>)
    ensures MergeStart(runs).Some? <==> [] !in runs
    decreases |runs|
  {
    if runs != [] {
      var n := |runs| - 1;
      StartNone(runs[..n]);
      assert runs == runs[..n] + [runs[n]];
    }
  }

  /** `io.EOF`'s text: what `ReadLine` returns on an empty run. */
  const EOF: string := "EOF"

  /**
   * The opening loop of `WriteFile`'s merge: one reader per run, whose first record goes into the
   * buffer `sortBuffer` (of one entry per run) at the run's position; an empty run stops it with the
   * reader's `io.EOF`.
   */
  method OpenRuns(runs: seq<seq<TextRecord>>) returns (buf: array<Entry>, readers: seq<Option<seq<TextRecord>>>,
                                                       valid: int, err: Option<string>)
    ensures fresh(buf)
    ensures err.None? <==> [] !in runs
    ensures err.Some? ==> err == Some(EOF)
    ensures err.None? ==> MergeStart(runs) == Some(Merge(buf[..], readers, valid, []))
  {
    buf := new Entry[|runs|](_ => Entry(None, 0));
    readers, valid := [], 0;
    var i := 0;
    while i < |runs|
      invariant 0 <= i <= |runs| && buf.Length == |runs|
      invariant MergeStart(runs[..i]) == Some(Merge(buf[..i], readers, valid, []))
    {
      if runs[i] == [] {
        StartNone(runs);
        return buf, readers, valid, Some(EOF);
      }
      ghost var before := buf[..i];
      buf[i] := Entry(Some(runs[i][0]), i);
      assert buf[..i + 1] == before + [Entry(Some(runs[i][0]), i)];
      assert runs[..i + 1][..i] == runs[..i];
      readers := readers + [Some(runs[i][1..])];
      valid := valid + 1;
      i := i + 1;
    }
    assert runs[..i] == runs && buf[..i] == buf[..];
    StartNone(runs);
    err := None;
  }

  // ---------------------------------------------------------------------------------------------
  // The merge loop

  /** The text of records, one after the other: `writeLine` writes a record's raw text. */
  function Lines(rs: seq<TextRecord>): string
  {
    if rs == [] then [] else Lines(rs[..|rs| - 1]) + rs[|rs| - 1].rawString
  }

  /** The lines of records one after the other are the lines of each. */
  lemma {:induction false} LinesAppend(a: seq<TextRecord>, b: seq<TextRecord>)
    ensures Lines(a + b) == Lines(a) + Lines(b)
    decreases |b|
  {
    if b == [] {
      assert a + b == a;
    } else {
      var n := |b| - 1;
      LinesAppend(a, b[..n]);
      assert (a + b)[..|a + b| - 1] == a + b[..n];
    }
  }

  /** One more turn of the merge loop, when there is one. */
  lemma MergeFromStep(keys: seq<ColumnSpec>, parse: string -> Option<real>, st: Merge, next: Merge)
    requires MergeStep(keys, parse, st, true) == Going(next)
    ensures MergeFrom(keys, parse, st, true) == MergeFrom(keys, parse, next, true)
  {
  }

  /**
   * The merge loop of `WriteFile`, corrected: while readers are open, the buffer is sorted in place,
   * its first record written, and that record's reader read once more; at a reader's end its entry
   * is cleared and `validReaders` counts down. A nil first entry or a closed reader is Go's panic,
   * reported as `panicked`.
   */
  method MergeLoop(keys: seq<ColumnSpec>, parse: string -> Option<real>, buf: array<Entry>,
                   readers0: seq<Option<seq<TextRecord>>>, valid0: int) returns (s: string, panicked: bool)
    modifies buf
    ensures var m := MergeFrom(keys, parse, Merge(old(buf[..]), readers0, valid0, []), true);
      s == Lines(m.out) && panicked == m.panicked
  {
    ghost var total := MergeFrom(keys, parse, Merge(buf[..], readers0, valid0, []), true);
    var readers, valid := readers0, valid0;
    ghost var out: seq<TextRecord> := [];
    s := [];
    while true
      invariant MergeFrom(keys, parse, Merge(buf[..], readers, valid, out), true) == total
      invariant s == Lines(out)
      decreases Pending(readers)
    {
      ghost var st := Merge(buf[..], readers, valid, out);
      var stop, line;
      stop, line, panicked, readers, valid, out := MergeTurn(keys, parse, buf, readers, valid, out);
      s := s + line;
      if stop {
        return;
      }
      MergeFromStep(keys, parse, st, Merge(buf[..], readers, valid, out));
    }
  }

  /**
   * One turn of the merge loop: the buffer sorted in place, its first record written (`line`), and
   * that record's reader read once more, or its entry cleared at the reader's end.
   */
  method MergeTurn(keys: seq<ColumnSpec>, parse: string -> Option<real>, buf: array<Entry>,
                   readers: seq<Option<seq<TextRecord>>>, valid: int, ghost out: seq<TextRecord>)
    returns (stop: bool, line: string, panicked: bool, readers': seq<Option<seq<TextRecord>>>, valid': int,
             ghost out': seq<TextRecord>)
    modifies buf
    ensures Lines(out') == Lines(out) + line
    ensures var t := MergeStep(keys, parse, Merge(old(buf[..]), readers, valid, out), true);
      if stop then t == Finished(Merged(out', panicked))
      else t == Going(Merge(buf[..], readers', valid', out'))
  {
    readers', valid', out', line := readers, valid, out, [];
    if valid <= 0 {
      return true, line, false, readers', valid', out';
    }
    if buf.Length == 0 {
      return true, line, true, readers', valid', out';
    }
    SortBuffer(keys, parse, buf);
    var lowest := buf[0];
    if lowest.val.None? {
      return true, line, true, readers', valid', out';
    }
    out' := out + [lowest.val.value];
    assert out'[..|out'| - 1] == out;
    line := lowest.val.value.rawString;
    var i := lowest.idx;
    if !(0 <= i < |readers|) || readers[i].None? {
      return true, line, true, readers', valid', out';
    }
    var rest := readers[i].value;
    MergeGoing(keys, parse, Merge(old(buf[..]), readers, valid, out), buf[..], rest);
    readers', valid' := Advance(buf, readers, valid, i, rest);
    stop, panicked := false, false;
  }

  /** The lowest entry's reader `i` read once more: its next record, or a cleared entry at its end. */
  method Advance(buf: array<Entry>, readers: seq<Option<seq<TextRecord>>>, valid: int, i: int, rest: seq<TextRecord>)
    returns (readers': seq<Option<seq<TextRecord>>>, valid': int)
    requires buf.Length > 0 && 0 <= i < |readers| && readers[i] == Some(rest)
    modifies buf
    ensures rest == [] ==> buf[..] == old(buf[..])[0 := Entry(None, i)] && readers' == readers[i := None] && valid' == valid - 1
    ensures rest != [] ==> buf[..] == old(buf[..])[0 := Entry(Some(rest[0]), i)] && readers' == readers[i := Some(rest[1..])]
                           && valid' == valid
  {
    if rest == [] {
      buf[0] := Entry(None, i);
      readers', valid' := readers[i := None], valid - 1;
    } else {
      buf[0] := Entry(Some(rest[0]), i);
      readers', valid' := readers[i := Some(rest[1..])], valid;
    }
  }

  /** `MergeGoing` when the lowest entry's reader has nothing left: its entry is cleared. */
  lemma MergeGoingEmpty(keys: seq<ColumnSpec>, parse: string -> Option<real>, st: Merge, b: seq<Entry>)
    requires st.valid > 0 && st.buf != [] && b == SortEntries(keys, parse, st.buf) && b[0].val.Some?
    requires 0 <= b[0].idx < |st.readers| && st.readers[b[0].idx] == Some([])
    ensures MergeStep(keys, parse, st, true)
         == Going(Merge(b[0 := Entry(None, b[0].idx)], st.readers[b[0].idx := None], st.valid - 1, st.out + [b[0].val.value]))
  {
    MergeGoing(keys, parse, st, b, []);
  }

  /** The merge loop goes on once the lowest entry's reader is open. */
  lemma MergeGoing(keys: seq<ColumnSpec>, parse: string -> Option<real>, st: Merge, b: seq<Entry>, rest: seq<TextRecord>)
    requires st.valid > 0 && st.buf != [] && b == SortEntries(keys, parse, st.buf) && b[0].val.Some?
    requires 0 <= b[0].idx < |st.readers| && st.readers[b[0].idx] == Some(rest)
    ensures var i, out := b[0].idx, st.out + [b[0].val.value];
      MergeStep(keys, parse, st, true)
      == Going(if rest == [] then Merge(b[0 := Entry(None, i)], st.readers[i := None], st.valid - 1, out)
               else Merge(b[0 := Entry(Some(rest[0]), i)], st.readers[i := Some(rest[1..])], st.valid, out))
  {
  }

  // ---------------------------------------------------------------------------------------------
  // Temporary files

  /** The temporary directory: the names of the files present (a name is a number) and how many names were handed out. */
  class TempDir {
    var present: set<nat>
    var made: nat

    /** Every file present has a name handed out before. */
    predicate Valid()
      reads this
    {
      forall k :: k in present ==> k < made
    }

    /** An empty directory. */
    constructor ()
      ensures present == {} && Valid()
    {
      present := {};
      made := 0;
    }

    /** `ioutil.TempFile`: a new file, under a name no file present has. */
    method TempFile() returns (name: nat)
      requires Valid()
      modifies this
      ensures Valid() && name !in old(present) && present == old(present) + {name}
    {
      name := made;
      made := made + 1;
      present := present + {name};
    }

    /** `os.Remove`. */
    method Remove(name: nat)
      requires Valid()
      modifies this`present
      ensures Valid() && present == old(present) - {name}
    {
      present := present - {name};
    }
  }

  /** The names in a list of files. */
  function Names(files: seq<nat>): set<nat>
  {
    if files == [] then {} else Names(files[..|files| - 1]) + {files[|files| - 1]}
  }

  /** `cleanUpTemp`: removes every file of the list. */
  method CleanUpTemp(dir: TempDir, files: seq<nat>)
    requires dir.Valid()
    modifies dir`present
    ensures dir.Valid() && dir.present == old(dir.present) - Names(files)
  {
    var i := 0;
    while i < |files|
      invariant 0 <= i <= |files| && dir.Valid()
      invariant dir.present == old(dir.present) - Names(files[..i])
    {
      dir.Remove(files[i]);
      assert files[..i + 1][..i] == files[..i];
      i := i + 1;
    }
    assert files[..i] == files;
  }

  /**
   * The files made while the directory held `start` files: all present beside `start`, under names
   * `start` does not have.
   */
  predicate Tracked(dir: TempDir, start: set<nat>, files: seq<nat>)
    reads dir
  {
    dir.Valid() && dir.present == start + Names(files) && start !! Names(files)
  }

  /** One more file made keeps the files made tracked. */
  lemma TrackedSnoc(start: set<nat>, before: set<nat>, after: set<nat>, files: seq<nat>, name: nat)
    requires before == start + Names(files) && start !! Names(files)
    requires name !in before && after == before + {name}
    ensures after == start + Names(files + [name]) && start !! Names(files + [name])
  {
    assert (files + [name])[..|files|] == files;
  }

  /** Removing the files made leaves the directory as it was. */
  lemma CleanedUp(start: set<nat>, files: seq<nat>)
    requires start !! Names(files)
    ensures (start + Names(files)) - Names(files) == start
  {
  }

  // ---------------------------------------------------------------------------------------------
  // The spill loop

  /** A full buffer sorted in place and written to a new temporary file as one run. */
  method SpillRun(keys: seq<ColumnSpec>, parse: string -> Option<real>, records: array<Entry>,
                  runs: seq<seq<TextRecord>>, files: seq<nat>, dir: TempDir, ghost start: set<nat>)
    returns (runs': seq<seq<TextRecord>>, files': seq<nat>)
    requires Tracked(dir, start, files)
    modifies records, dir
    ensures records[..] == SortEntries(keys, parse, old(records[..]))
    ensures runs' == runs + [Recs(records[..])]
    ensures |files'| == |files| + 1 && Tracked(dir, start, files')
  {
    SortBuffer(keys, parse, records);
    var name := dir.TempFile();
    TrackedSnoc(start, old(dir.present), dir.present, files, name);
    runs' := runs + [Recs(records[..])];
    files' := files + [name];
  }

  /** `sort.Sort(records[:pos])` in place: the corrected sort of the remainder. */
  method SortPrefix(keys: seq<ColumnSpec>, parse: string -> Option<real>, a: array<Entry>, pos: nat)
    requires pos <= a.Length
    modifies a
    ensures a[..pos] == SortEntries(keys, parse, old(a[..pos])) && a[pos..] == old(a[pos..])
  {
    var s := SortEntries(keys, parse, a[..pos]);
    forall i | 0 <= i < pos {
      a[i] := s[i];
    }
  }

  /**
   * A data record into the buffer at `pos`; a full buffer is sorted in place and spilled to a new
   * temporary file as one run, and `pos` starts again at zero.
   */
  method BufferRecord(keys: seq<ColumnSpec>, parse: string -> Option<real>, records: array<Entry>, pos: nat,
                      runs: seq<seq<TextRecord>>, files: seq<nat>, dir: TempDir, ghost start: set<nat>, rec: TextRecord)
    returns (pos': nat, runs': seq<seq<TextRecord>>, files': seq<nat>)
    requires pos < records.Length && |files| == |runs| && Tracked(dir, start, files)
    modifies records, dir
    ensures Spill(runs', records[..], pos') == Push(keys, parse, Spill(runs, old(records[..]), pos), rec)
    ensures |files'| == |runs'| && Tracked(dir, start, files')
  {
    records[pos] := Entry(Some(rec), 0);
    pos', runs', files' := pos + 1, runs, files;
    if pos' >= records.Length {
      runs', files' := SpillRun(keys, parse, records, runs, files, dir, start);
      pos' := 0;
    }
  }

  // ---------------------------------------------------------------------------------------------
  // TextSorter.WriteFile

  /**
   * What the reading loop of `WriteFile` makes: the text written on the way (comments and the
   * header), the error, the columns, the data records gathered for the sort and the file's state.
   */
  datatype Gather = Gather(out: string, err: Option<string>, keys: seq<ColumnSpec>, data: seq<TextRecord>,
                           after: ParserState)

  /** The same reading with `s` written and `d` gathered before it. */
  function Precede(s: string, d: seq<TextRecord>, g: Gather): Gather
  {
    g.(out := s + g.out, data := d + g.data)
  }

  /**
   * `WriteFile` at the first data record, `q` being the state after its read: the columns are
   * resolved against the header (`populateColIndex`), then the raw header line is written unless the
   * file has no header (`writeHeader`).
   */
  function HeaderStep(m: Mode, q: ParserState, keys: seq<ColumnSpec>): Exporter.DataOut
  {
    var header := Exporter.HeaderNames(q);
    var res := ResolveSpecs(keys, header);
    if res.1.Some? then Exporter.DataOut([], Some(Exporter.MissingColumn(res.1.value, header, m.headerComment)), res.0)
    else Exporter.DataOut(if m.noHeader then [] else q.rawHeaderLine, None, res.0)
  }

  /**
   * The reading loop of `WriteFile` from parser state `p`, `wrote` telling whether the header step
   * is done: comments are written at once when `show` is set and never gathered; the first data
   * record goes through `HeaderStep`; every data record is gathered; the end of the file ends the
   * loop and an error stops it.
   */
  function GatherFrom(f: Format, m: Mode, show: bool, p: ParserState, keys: seq<ColumnSpec>, wrote: bool): Gather
    decreases |p.pending|
  {
    var n := NextRecord(f, m, p);
    var q := n.1;
    if n.0.EndOfFile? then Gather([], None, keys, [], q)
    else if n.0.rec.values.None? then
      Precede(if show then n.0.rec.rawString else [], [], GatherFrom(f, m, show, q, keys, wrote))
    else if wrote then Precede([], [n.0.rec], GatherFrom(f, m, show, q, keys, true))
    else
      var h := HeaderStep(m, q, keys);
      if h.err.Some? then Gather(h.out, h.err, h.keys, [], q)
      else Precede(h.out, [n.0.rec], GatherFrom(f, m, show, q, h.keys, true))
  }

  /** Writing and gathering before, twice, is writing and gathering both. */
  lemma PrecedePrecede(s: string, d: seq<TextRecord>, t: string, e: seq<TextRecord>, g: Gather)
    ensures Precede(s, d, Precede(t, e, g)) == Precede(s + t, d + e, g)
  {
    assert s + (t + g.out) == (s + t) + g.out;
    assert d + (e + g.data) == (d + e) + g.data;
  }

  /** Nothing written and nothing gathered before a reading leaves it as it is. */
  lemma PrecedeNothing(g: Gather)
    ensures Precede([], [], g) == g
  {
    assert [] + g.out == g.out && [] + g.data == g.data;
  }

  /** Only data records. */
  predicate AllData(rs: seq<TextRecord>)
  {
    forall i :: 0 <= i < |rs| ==> rs[i].values.Some?
  }

  /** The values of data records, in order. */
  function Values(rs: seq<TextRecord>): seq<seq<string>>
    requires AllData(rs)
  {
    if rs == [] then [] else [rs[0].values.value] + Values(rs[1..])
  }

  /** A data record before data records. */
  lemma ValuesCons(rec: TextRecord, rs: seq<TextRecord>)
    requires rec.values.Some? && AllData(rs)
    ensures AllData([rec] + rs) && Values([rec] + rs) == [rec.values.value] + Values(rs)
  {
    assert ([rec] + rs)[1..] == rs;
  }

  /**
   * Once the header step is done, reading never fails and keeps the columns; it gathers the data
   * records of the file, all of them and in order, and no comment.
   */
  lemma {:induction false} GatherAll(f: Format, m: Mode, show: bool, p: ParserState, keys: seq<ColumnSpec>)
    ensures var g := GatherFrom(f, m, show, p, keys, true);
      g.err.None? && g.keys == keys && AllData(g.data) && Values(g.data) == DataRows(f, m, p)
    decreases |p.pending|
  {
    var n := NextRecord(f, m, p);
    var q := n.1;
    if n.0.Record? {
      GatherAll(f, m, show, q, keys);
      var g := GatherFrom(f, m, show, q, keys, true);
      if n.0.rec.values.Some? {
        ValuesCons(n.0.rec, g.data);
      } else {
        assert [] + g.data == g.data;
      }
    }
  }

  /**
   * From the start, reading fails only when the first data record's header lacks a column, and
   * then has gathered nothing; otherwise it gathers the data records of the file, all of them and
   * in order, and no comment.
   */
  lemma {:induction false} GatherFirst(f: Format, m: Mode, show: bool, p: ParserState, keys: seq<ColumnSpec>)
    ensures var g := GatherFrom(f, m, show, p, keys, false);
      (g.err.Some? ==> g.data == [] && g.err == HeaderStep(m, g.after, keys).err)
      && (g.err.None? ==> AllData(g.data) && Values(g.data) == DataRows(f, m, p))
    decreases |p.pending|
  {
    var n := NextRecord(f, m, p);
    var q := n.1;
    if n.0.Record? {
      if n.0.rec.values.None? {
        GatherFirst(f, m, show, q, keys);
        var g := GatherFrom(f, m, show, q, keys, false);
        assert [] + g.data == g.data;
      } else {
        var h := HeaderStep(m, q, keys);
        if h.err.None? {
          GatherAll(f, m, show, q, h.keys);
          ValuesCons(n.0.rec, GatherFrom(f, m, show, q, h.keys, true).data);
        }
      }
    }
  }

  /** `WriteFile`'s reading, at the end of the file. */
  lemma GatherAtEnd(f: Format, m: Mode, show: bool, p: ParserState, keys: seq<ColumnSpec>, wrote: bool,
                    out: string, data: seq<TextRecord>, q: ParserState)
    requires NextRecord(f, m, p) == (EndOfFile, q)
    ensures Precede(out, data, GatherFrom(f, m, show, p, keys, wrote)) == Gather(out, None, keys, data, q)
  {
    assert out + [] == out && data + [] == data;
  }

  /** `WriteFile`'s reading, at a comment. */
  lemma GatherAtComment(f: Format, m: Mode, show: bool, p: ParserState, keys: seq<ColumnSpec>, wrote: bool,
                        out: string, data: seq<TextRecord>, rec: TextRecord, q: ParserState)
    requires NextRecord(f, m, p) == (Record(rec), q) && rec.values.None?
    ensures Precede(out, data, GatherFrom(f, m, show, p, keys, wrote))
         == Precede(out + if show then rec.rawString else [], data, GatherFrom(f, m, show, q, keys, wrote))
  {
    PrecedePrecede(out, data, if show then rec.rawString else [], [], GatherFrom(f, m, show, q, keys, wrote));
    assert data + [] == data;
  }

  /** `WriteFile`'s reading, at a data record after the header step. */
  lemma GatherAtData(f: Format, m: Mode, show: bool, p: ParserState, keys: seq<ColumnSpec>,
                     out: string, data: seq<TextRecord>, rec: TextRecord, q: ParserState)
    requires NextRecord(f, m, p) == (Record(rec), q) && rec.values.Some?
    ensures Precede(out, data, GatherFrom(f, m, show, p, keys, true))
         == Precede(out, data + [rec], GatherFrom(f, m, show, q, keys, true))
  {
    PrecedePrecede(out, data, [], [rec], GatherFrom(f, m, show, q, keys, true));
    assert out + [] == out;
  }

  /** `WriteFile`'s reading, at the first data record, when the header has every column. */
  lemma GatherAtHeader(f: Format, m: Mode, show: bool, p: ParserState, keys: seq<ColumnSpec>,
                       out: string, data: seq<TextRecord>, rec: TextRecord, q: ParserState, h: Exporter.DataOut)
    requires NextRecord(f, m, p) == (Record(rec), q) && rec.values.Some?
    requires h == HeaderStep(m, q, keys) && h.err.None?
    ensures Precede(out, data, GatherFrom(f, m, show, p, keys, false))
         == Precede(out + h.out, data + [rec], GatherFrom(f, m, show, q, h.keys, true))
  {
    PrecedePrecede(out, data, h.out, [rec], GatherFrom(f, m, show, q, h.keys, true));
  }

  /** `WriteFile`'s reading, at the first data record, when the header lacks a column. */
  lemma GatherAtError(f: Format, m: Mode, show: bool, p: ParserState, keys: seq<ColumnSpec>,
                      out: string, data: seq<TextRecord>, rec: TextRecord, q: ParserState, h: Exporter.DataOut)
    requires NextRecord(f, m, p) == (Record(rec), q) && rec.values.Some?
    requires h == HeaderStep(m, q, keys) && h.err.Some?
    ensures Precede(out, data, GatherFrom(f, m, show, p, keys, false)) == Gather(out + h.out, h.err, h.keys, data, q)
  {
    assert data + [] == data;
  }

  /** What `WriteFile` ends with: the text written, the error returned, and whether it panicked. */
  datatype SortResult = SortResult(out: string, err: Option<string>, panicked: bool)

  /**
   * The corrected `WriteFile` on a file in parser state `p`, sorting by `keys` with a buffer of `n`
   * records: the reading, then the runs merged; each way out of the code is a branch here.
   */
  function SortFile(f: Format, m: Mode, show: bool, p: ParserState, keys: seq<ColumnSpec>,
                    parse: string -> Option<real>, n: nat): SortResult
    requires n > 0
  {
    var g := GatherFrom(f, m, show, p, keys, false);
    if g.err.Some? then SortResult(g.out, g.err, false)
    else
      var mg := MergeRuns(g.keys, parse, Runs(g.keys, parse, n, g.data, true), true);
      if mg.None? then SortResult(g.out, Some(EOF), false)
      else SortResult(g.out + Lines(mg.value.out), None, mg.value.panicked)
  }

  /**
   * The data records as the corrected sort writes them: each exactly once, and ordered under
   * `Less` when every numeric key parses.
   */
  function SortRecords(keys: seq<ColumnSpec>, parse: string -> Option<real>, n: nat, data: seq<TextRecord>)
    : (r: seq<TextRecord>)
    requires n > 0
    ensures multiset(r) == multiset(data)
    ensures RecsComparable(keys, parse, data) ==> Ordered(keys, parse, r)
  {
    SortKeepsRecords(keys, parse, n, data);
    MergeRuns(keys, parse, Runs(keys, parse, n, data, true), true).value.out
  }

  /** Sorting by string columns only, the corrected sort writes every data record once, in order. */
  lemma SortStringKeys(keys: seq<ColumnSpec>, parse: string -> Option<real>, n: nat, data: seq<TextRecord>)
    requires n > 0 && forall k :: 0 <= k < |keys| ==> !keys[k].isNum
    ensures multiset(SortRecords(keys, parse, n, data)) == multiset(data)
    ensures Ordered(keys, parse, SortRecords(keys, parse, n, data))
  {
    assert RecsComparable(keys, parse, data);
  }

  /**
   * The corrected `WriteFile` never panics and never meets an empty run: it fails only as reading
   * fails, and otherwise writes the comments and header it read, then every data record once, in
   * the order `SortRecords` gives.
   */
  lemma SortFileCorrect(f: Format, m: Mode, show: bool, p: ParserState, keys: seq<ColumnSpec>,
                        parse: string -> Option<real>, n: nat)
    requires n > 0
    ensures var g := GatherFrom(f, m, show, p, keys, false);
      SortFile(f, m, show, p, keys, parse, n)
      == if g.err.Some? then SortResult(g.out, g.err, false)
         else SortResult(g.out + Lines(SortRecords(g.keys, parse, n, g.data)), None, false)
  {
    var g := GatherFrom(f, m, show, p, keys, false);
    if g.err.None? {
      SortKeepsRecords(g.keys, parse, n, g.data);
    }
  }

  /** The remainder, corrected: `records[:pos]` sorted in place and spilled as one more run. */
  method SpillRest(keys: seq<ColumnSpec>, parse: string -> Option<real>, records: array<Entry>, pos: nat,
                   runs: seq<seq<TextRecord>>, files: seq<nat>, dir: TempDir, ghost start: set<nat>)
    returns (runs': seq<seq<TextRecord>>, files': seq<nat>)
    requires pos <= records.Length && Tracked(dir, start, files)
    modifies records, dir
    ensures runs' == FinalRuns(keys, parse, Spill(runs, old(records[..]), pos), true)
    ensures Tracked(dir, start, files')
  {
    runs', files' := runs, files;
    if pos > 0 {
      SortPrefix(keys, parse, records, pos);
      var name := dir.TempFile();
      TrackedSnoc(start, old(dir.present), dir.present, files, name);
      runs' := runs + [Recs(records[..pos])];
      files' := files + [name];
    }
  }

  /** The spill loop from no data records: the empty buffer, whatever the columns. */
  lemma CollectEmpty(keys: seq<ColumnSpec>, keys': seq<ColumnSpec>, parse: string -> Option<real>, n: nat)
    requires n > 0
    ensures Collect(keys, parse, n, []) == Collect(keys', parse, n, [])
  {
  }

  /** The spill loop over one more data record pushes it. */
  lemma CollectSnoc(keys: seq<ColumnSpec>, parse: string -> Option<real>, n: nat, data: seq<TextRecord>, rec: TextRecord)
    requires n > 0
    ensures Collect(keys, parse, n, data + [rec]) == Push(keys, parse, Collect(keys, parse, n, data), rec)
  {
    assert (data + [rec])[..|data|] == data;
  }

  /**
   * The merge phase of `WriteFile`, corrected: the runs opened, then merged; an empty run fails
   * the opening with `io.EOF` and nothing is written.
   */
  method MergeFiles(keys: seq<ColumnSpec>, parse: string -> Option<real>, runs: seq<seq<TextRecord>>)
    returns (s: string, err: Option<string>, panicked: bool)
    ensures var mg := MergeRuns(keys, parse, runs, true);
      && err == (if mg.None? then Some(EOF) else None)
      && s == (if mg.None? then [] else Lines(mg.value.out))
      && panicked == (mg.Some? && mg.value.panicked)
  {
    var buf, readers, valid, openErr := OpenRuns(runs);
    StartNone(runs);
    if openErr.Some? {
      return [], openErr, false;
    }
    s, panicked := MergeLoop(keys, parse, buf, readers, valid);
    err := None;
  }

  class TextSorter {
    const txt: DelimitedTextFile
    const cols: seq<TextColumn>
    var showComments: bool
    const sortBufferLen: nat

    /** `NewTextSorter`: comments are not shown and the buffer holds `defaultSortBufferLen` records. */
    constructor NewTextSorter(f: DelimitedTextFile, cols: seq<TextColumn>)
      ensures txt == f && this.cols == cols && !showComments && sortBufferLen == DefaultSortBufferLen
    {
      txt := f;
      this.cols := cols;
      showComments := false;
      sortBufferLen := DefaultSortBufferLen;
    }

    /** `WithShowComments`: sets the flag and returns the sorter. */
    method WithShowComments(b: bool) returns (t: TextSorter)
      modifies this`showComments
      ensures t == this && showComments == b
    {
      showComments := b;
      t := this;
    }

    /**
     * `populateColIndex`: resolves the columns against the current header; the error names the
     * first column missing, the header and the header-comment mode.
     */
    method PopulateColIndex() returns (err: Option<string>)
      requires Distinct(cols)
      modifies set c | c in cols
      ensures var header := Exporter.HeaderNames(txt.State());
        var r := ResolveSpecs(old(Specs(cols)), header);
        Specs(cols) == r.0
        && err == (if r.1.Some? then Some(Exporter.MissingColumn(r.1.value, header, txt.headerComment)) else None)
    {
      var header := if txt.Header.Some? then txt.Header.value else [];
      var e := ResolveColumns(cols, header);
      if e.Some? {
        err := Some(Exporter.MissingColumn(e.value, header, txt.headerComment));
      } else {
        err := None;
      }
    }

    /** The first data record's block of `WriteFile`: `populateColIndex`, then `writeHeader` unless the file has none. */
    method StartData() returns (s: string, err: Option<string>)
      requires Distinct(cols)
      modifies set c | c in cols
      ensures var h := HeaderStep(txt.Modes(), txt.State(), old(Specs(cols)));
        s == h.out && err == h.err && Specs(cols) == h.keys
      ensures txt.State() == old(txt.State())
    {
      err := PopulateColIndex();
      s := [];
      if err.None? && !txt.noHeader && txt.rawHeaderLine != "" {
        s := txt.rawHeaderLine;
      }
    }

    /**
     * One turn of `WriteFile`'s reading loop: reads a record; a comment is written when shown, and
     * a data record, after the header step for the first, is returned for the buffer. `done` at the
     * end of the file or on an error.
     */
    method Step(out: string, ghost data: seq<TextRecord>, wrote: bool)
      returns (done: bool, rec: Option<TextRecord>, out': string, err: Option<string>, wrote': bool)
      requires Distinct(cols)
      modifies txt`next, txt`hasNext, txt`rest, txt`curLineNum, txt`curDataLineNum, txt`Header, txt`lastComment,
               txt`rawHeaderLine, set c | c in cols
      ensures wrote ==> wrote' && Specs(cols) == old(Specs(cols))
      ensures !done && rec.None? ==> wrote' == wrote && Specs(cols) == old(Specs(cols))
      ensures rec.Some? ==> wrote' && !done
      ensures var e := Precede(out, data, GatherFrom(txt.Fmt(), txt.Modes(), showComments, old(txt.State()),
                                                     old(Specs(cols)), wrote));
        if done then e == Gather(out', err, Specs(cols), data, txt.State())
        else e == Precede(out', data + (if rec.Some? then [rec.value] else []),
                          GatherFrom(txt.Fmt(), txt.Modes(), showComments, txt.State(), Specs(cols), wrote'))
             && |txt.State().pending| < |old(txt.State()).pending|
    {
      ghost var p, keys := txt.State(), Specs(cols);
      var r := txt.ReadLine();
      if r.EndOfFile? {
        GatherAtEnd(txt.Fmt(), txt.Modes(), showComments, p, keys, wrote, out, data, txt.State());
        return true, None, out, None, wrote;
      }
      if r.rec.values.None? {
        GatherAtComment(txt.Fmt(), txt.Modes(), showComments, p, keys, wrote, out, data, r.rec, txt.State());
        assert data + [] == data;
        return false, None, out + if showComments then r.rec.rawString else [], None, wrote;
      }
      if wrote {
        GatherAtData(txt.Fmt(), txt.Modes(), showComments, p, keys, out, data, r.rec, txt.State());
        return false, Some(r.rec), out, None, true;
      }
      done, out', err := HeaderTurn(out, data, p, r.rec);
      rec := if done then None else Some(r.rec);
      wrote' := !done;
    }

    /** `Step` at the first data record `rec`, read from parser state `p`: the header step. */
    method HeaderTurn(out: string, ghost data: seq<TextRecord>, ghost p: ParserState, rec: TextRecord)
      returns (done: bool, out': string, err: Option<string>)
      requires Distinct(cols) && NextRecord(txt.Fmt(), txt.Modes(), p) == (Record(rec), txt.State()) && rec.values.Some?
      modifies set c | c in cols
      ensures txt.State() == old(txt.State())
      ensures var e := Precede(out, data, GatherFrom(txt.Fmt(), txt.Modes(), showComments, p, old(Specs(cols)), false));
        if done then e == Gather(out', err, Specs(cols), data, txt.State())
        else err.None? && e == Precede(out', data + [rec], GatherFrom(txt.Fmt(), txt.Modes(), showComments, txt.State(), Specs(cols), true))
    {
      ghost var q, keys := txt.State(), Specs(cols);
      var h, e := StartData();
      ghost var step := Exporter.DataOut(h, e, Specs(cols));
      if e.Some? {
        GatherAtError(txt.Fmt(), txt.Modes(), showComments, p, keys, out, data, rec, q, step);
        return true, out + h, e;
      }
      GatherAtHeader(txt.Fmt(), txt.Modes(), showComments, p, keys, out, data, rec, q, step);
      return false, out + h, None;
    }

    /**
     * One turn of `WriteFile`'s reading loop with the spill: a data record goes into the buffer
     * `records` at `pos`, and a full buffer is sorted and spilled to a new temporary file.
     */
    method Turn(parse: string -> Option<real>, out: string, ghost data: seq<TextRecord>, wrote: bool,
                records: array<Entry>, pos: nat, runs: seq<seq<TextRecord>>, files: seq<nat>, dir: TempDir,
                ghost start: set<nat>)
      returns (done: bool, out': string, err: Option<string>, ghost data': seq<TextRecord>, wrote': bool,
               pos': nat, runs': seq<seq<TextRecord>>, files': seq<nat>)
      requires Distinct(cols) && records.Length == sortBufferLen && pos < sortBufferLen && (!wrote ==> data == [])
      requires Spill(runs, records[..], pos) == Collect(Specs(cols), parse, sortBufferLen, data)
      requires |files| == |runs| && Tracked(dir, start, files)
      modifies txt`next, txt`hasNext, txt`rest, txt`curLineNum, txt`curDataLineNum, txt`Header, txt`lastComment,
               txt`rawHeaderLine, records, dir, set c | c in cols
      ensures pos' < sortBufferLen && (!wrote' ==> data' == [])
      ensures Spill(runs', records[..], pos') == Collect(Specs(cols), parse, sortBufferLen, data')
      ensures |files'| == |runs'| && Tracked(dir, start, files')
      ensures var e := Precede(out, data, GatherFrom(txt.Fmt(), txt.Modes(), showComments, old(txt.State()),
                                                     old(Specs(cols)), wrote));
        if done then e == Gather(out', err, Specs(cols), data', txt.State())
        else e == Precede(out', data', GatherFrom(txt.Fmt(), txt.Modes(), showComments, txt.State(), Specs(cols), wrote'))
             && |txt.State().pending| < |old(txt.State()).pending|
    {
      ghost var keys := Specs(cols);
      var rec;
      done, rec, out', err, wrote' := Step(out, data, wrote);
      if !wrote {
        CollectEmpty(keys, Specs(cols), parse, sortBufferLen);
      }
      data', pos', runs', files' := data, pos, runs, files;
      if rec.None? {
        assert data + [] == data;
      } else {
        data', pos', runs', files' := Absorb(parse, rec.value, data, records, pos, runs, files, dir, start);
      }
    }

    /** A data record into the buffer, spilled when full; the file and the columns are left as they are. */
    method Absorb(parse: string -> Option<real>, rec: TextRecord, ghost data: seq<TextRecord>, records: array<Entry>,
                  pos: nat, runs: seq<seq<TextRecord>>, files: seq<nat>, dir: TempDir, ghost start: set<nat>)
      returns (ghost data': seq<TextRecord>, pos': nat, runs': seq<seq<TextRecord>>, files': seq<nat>)
      requires records.Length == sortBufferLen && pos < sortBufferLen
      requires Spill(runs, records[..], pos) == Collect(Specs(cols), parse, sortBufferLen, data)
      requires |files| == |runs| && Tracked(dir, start, files)
      modifies records, dir
      ensures Specs(cols) == old(Specs(cols)) && txt.State() == old(txt.State())
      ensures data' == data + [rec] && pos' < sortBufferLen
      ensures Spill(runs', records[..], pos') == Collect(Specs(cols), parse, sortBufferLen, data')
      ensures |files'| == |runs'| && Tracked(dir, start, files')
    {
      data' := data + [rec];
      CollectSnoc(Specs(cols), parse, sortBufferLen, data, rec);
      pos', runs', files' := BufferRecord(Specs(cols), parse, records, pos, runs, files, dir, start, rec);
    }

    /**
     * `WriteFile`'s reading loop with the spill: data records fill the buffer `records`, empty at
     * first, and each time it is full it is sorted and spilled to a new temporary file.
     */
    method ReadAll(parse: string -> Option<real>, records: array<Entry>, dir: TempDir)
      returns (out: string, err: Option<string>, ghost data: seq<TextRecord>, pos: nat, runs: seq<seq<TextRecord>>,
               files: seq<nat>)
      requires Distinct(cols) && records.Length == sortBufferLen > 0 && records[..] == EmptyBuffer(sortBufferLen)
      requires dir.Valid()
      modifies txt`next, txt`hasNext, txt`rest, txt`curLineNum, txt`curDataLineNum, txt`Header, txt`lastComment,
               txt`rawHeaderLine, records, dir, set c | c in cols
      ensures Tracked(dir, old(dir.present), files)
      ensures GatherFrom(txt.Fmt(), txt.Modes(), showComments, old(txt.State()), old(Specs(cols)), false)
              == Gather(out, err, Specs(cols), data, txt.State())
      ensures err.None? ==> Spill(runs, records[..], pos) == Collect(Specs(cols), parse, sortBufferLen, data)
    {
      ghost var total := GatherFrom(txt.Fmt(), txt.Modes(), showComments, txt.State(), Specs(cols), false);
      ghost var start := dir.present;
      data := [];
      PrecedeNothing(total);
      out, err := [], None;
      pos, runs, files := 0, [], [];
      var wrote := false;
      while true
        invariant pos < sortBufferLen && (!wrote ==> data == [])
        invariant total == Precede(out, data, GatherFrom(txt.Fmt(), txt.Modes(), showComments, txt.State(), Specs(cols), wrote))
        invariant Spill(runs, records[..], pos) == Collect(Specs(cols), parse, sortBufferLen, data)
        invariant |files| == |runs| && Tracked(dir, start, files)
        decreases |txt.State().pending|
      {
        var done;
        done, out, err, data, wrote, pos, runs, files := Turn(parse, out, data, wrote, records, pos, runs, files, dir, start);
        if done {
          return;
        }
      }
    }

    /**
     * `WriteFile`, corrected: the reading loop with the spill, the remainder spilled as one more
     * run, then the runs merged into `out`; the temporary files are removed on every way out.
     */
    method WriteFile(parse: string -> Option<real>, dir: TempDir) returns (out: string, err: Option<string>, panicked: bool)
      requires Distinct(cols) && sortBufferLen > 0 && dir.Valid()
      modifies txt`next, txt`hasNext, txt`rest, txt`curLineNum, txt`curDataLineNum, txt`Header, txt`lastComment,
               txt`rawHeaderLine, dir, set c | c in cols
      ensures SortResult(out, err, panicked)
              == SortFile(txt.Fmt(), txt.Modes(), showComments, old(txt.State()), old(Specs(cols)), parse, sortBufferLen)
      ensures var g := GatherFrom(txt.Fmt(), txt.Modes(), showComments, old(txt.State()), old(Specs(cols)), false);
        Specs(cols) == g.keys && txt.State() == g.after
      ensures dir.Valid() && dir.present == old(dir.present)
    {
      ghost var start := dir.present;
      ghost var data;
      var records := new Entry[sortBufferLen](_ => Entry(None, 0));
      assert records[..] == EmptyBuffer(sortBufferLen);
      var pos, runs, files;
      out, err, data, pos, runs, files := ReadAll(parse, records, dir);
      panicked := false;
      if err.None? {
        var s, e;
        s, e, panicked, files := MergeAll(parse, data, records, pos, runs, files, dir, start);
        if e.Some? {
          err := e;
        } else {
          out := out + s;
        }
      }
      CleanUp(dir, files, start);
    }

    /**
     * The end of `WriteFile`, corrected: the remainder spilled as one more run, then the runs merged;
     * the file and the columns are left as they are.
     */
    method MergeAll(parse: string -> Option<real>, ghost data: seq<TextRecord>, records: array<Entry>, pos: nat,
                    runs: seq<seq<TextRecord>>, files: seq<nat>, dir: TempDir, ghost start: set<nat>)
      returns (s: string, err: Option<string>, panicked: bool, files': seq<nat>)
      requires sortBufferLen > 0 && pos <= records.Length && Tracked(dir, start, files)
      requires Spill(runs, records[..], pos) == Collect(Specs(cols), parse, sortBufferLen, data)
      modifies records, dir
      ensures Specs(cols) == old(Specs(cols)) && txt.State() == old(txt.State()) && txt.Modes() == old(txt.Modes())
      ensures var mg := MergeRuns(Specs(cols), parse, Runs(Specs(cols), parse, sortBufferLen, data, true), true);
        && err == (if mg.None? then Some(EOF) else None)
        && s == (if mg.None? then [] else Lines(mg.value.out))
        && panicked == (mg.Some? && mg.value.panicked)
      ensures Tracked(dir, start, files')
    {
      var runs';
      runs', files' := SpillRest(Specs(cols), parse, records, pos, runs, files, dir, start);
      s, err, panicked := MergeFiles(Specs(cols), parse, runs');
    }

    /** `cleanUpTemp`, deferred: the files made are removed and the directory is as it was. */
    method CleanUp(dir: TempDir, files: seq<nat>, ghost start: set<nat>)
      requires Tracked(dir, start, files)
      modifies dir`present
      ensures Specs(cols) == old(Specs(cols)) && txt.State() == old(txt.State()) && txt.Modes() == old(txt.Modes())
      ensures dir.Valid() && dir.present == start
    {
      CleanUpTemp(dir, files);
      CleanedUp(start, files);
    }
  }
}
