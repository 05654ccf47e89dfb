/**
 * The small pieces of Go's `strings`, `strconv`, `fmt` and `unicode/utf8` packages that the
 * delimited-text code relies on, over runes (`char`, a Unicode scalar value).
 */
module StringUtil {

  newtype byte = x: int | 0 <= x < 256

  datatype Option<T> = None | Some(value: T)

  /** A value, or the text of the error Go would return instead. */
  datatype Result<T> = Ok(value: T) | Err(error: string)

  // ---------------------------------------------------------------------------------------------
  // UTF-8 (RFC 3629, section 3)

  /** `utf8.RuneLen`: how many bytes the UTF-8 encoding of a rune takes. */
  function RuneLen(c: char): (n: int)
    ensures 1 <= n <= 4
  {
    if c as int < 0x80 then 1
    else if c as int < 0x800 then 2
    else if c as int < 0x10000 then 3
    else 4
  }

  /** The UTF-8 encoding of one rune, as laid out in section 3 of RFC 3629. */
  function EncodeRune(c: char): seq<byte>
  {
    var v := c as int;
    if v < 0x80 then [v as byte]
    else if v < 0x800 then [(0xC0 + v / 0x40) as byte, (0x80 + v % 0x40) as byte]
    else if v < 0x10000 then
      [(0xE0 + v / 0x1000) as byte, (0x80 + (v / 0x40) % 0x40) as byte, (0x80 + v % 0x40) as byte]
    else
      [(0xF0 + v / 0x40000) as byte, (0x80 + (v / 0x1000) % 0x40) as byte,
       (0x80 + (v / 0x40) % 0x40) as byte, (0x80 + v % 0x40) as byte]
  }

  /** The UTF-8 encoding of a rune string. */
  function Encode(s: string): seq<byte>
  {
    if s == [] then [] else Encode(s[..|s| - 1]) + EncodeRune(s[|s| - 1])
  }

  /** The total encoded length of a rune string: what the parser accumulates as `ByteSize`. */
  function EncodedLen(s: string): int
  {
    if s == [] then 0 else EncodedLen(s[..|s| - 1]) + RuneLen(s[|s| - 1])
  }

  /** `RuneLen` is the length of the encoding, and the lead byte says how long the sequence is. */
  lemma EncodeRuneLength(c: char)
    ensures |EncodeRune(c)| == RuneLen(c)
    ensures RuneLen(c) == 1 <==> EncodeRune(c)[0] < 0x80
    ensures RuneLen(c) == 2 <==> 0xC0 <= EncodeRune(c)[0] < 0xE0
    ensures RuneLen(c) == 3 <==> 0xE0 <= EncodeRune(c)[0] < 0xF0
    ensures RuneLen(c) == 4 <==> 0xF0 <= EncodeRune(c)[0] < 0xF8
  {
  }

  /** Summed rune lengths are the byte length of the UTF-8 encoding. */
  lemma {:induction false} EncodedLenIsByteLength(s: string)
    ensures EncodedLen(s) == |Encode(s)|
    decreases |s|
  {
    if s != [] {
      EncodedLenIsByteLength(s[..|s| - 1]);
      EncodeRuneLength(s[|s| - 1]);
    }
  }

  lemma {:induction false} EncodedLenAppend(s: string, t: string)
    ensures EncodedLen(s + t) == EncodedLen(s) + EncodedLen(t)
    decreases |t|
  {
    if t == [] {
      assert s + t == s;
    } else {
      assert (s + t)[..|s + t| - 1] == s + t[..|t| - 1];
      EncodedLenAppend(s, t[..|t| - 1]);
    }
  }

  /** Encoding distributes over concatenation. */
  lemma {:induction false} EncodeAppend(s: string, t: string)
    ensures Encode(s + t) == Encode(s) + Encode(t)
    decreases |t|
  {
    if t == [] {
      assert s + t == s;
    } else {
      assert (s + t)[..|s + t| - 1] == s + t[..|t| - 1];
      EncodeAppend(s, t[..|t| - 1]);
    }
  }

  /**
   * UTF-8 text never starts with the gzip magic bytes `1F 8B`: `1F` encodes a rune by itself, and
   * `8B` is a continuation byte, which never starts the encoding of the next rune.
   */
  lemma TextIsNotGzip(s: string)
    requires |Encode(s)| >= 2
    ensures !(Encode(s)[0] == 0x1F && Encode(s)[1] == 0x8B)
  {
    assert s != [];
    EncodeHead(s);
    EncodeRuneLength(s[0]);
    if Encode(s)[0] == 0x1F {
      var rest := s[1..];
      assert Encode(s) == [0x1F] + Encode(rest);
      assert |Encode(rest)| >= 1;
      EncodeHead(rest);
      EncodeRuneLength(rest[0]);
      assert Encode(s)[1] == EncodeRune(rest[0])[0];
    }
  }

  /** The encoding of a non-empty string starts with the encoding of its first rune. */
  lemma EncodeHead(s: string)
    requires s != []
    ensures Encode(s) == EncodeRune(s[0]) + Encode(s[1..])
  {
    EncodeAppend([s[0]], s[1..]);
    assert [s[0]] + s[1..] == s;
    assert Encode([s[0]]) == EncodeRune(s[0]) by {
      assert [s[0]][..0] == [];
    }
  }

  // ---------------------------------------------------------------------------------------------
  // Go string comparison

  /**
   * Go's `<` on strings compares the UTF-8 bytes; since UTF-8 preserves code point order, this is
   * lexicographic order on runes.
   */
  predicate LexLess(a: string, b: string)
    decreases |a|
  {
    if a == [] then b != []
    else if b == [] then false
    else if a[0] != b[0] then a[0] < b[0]
    else LexLess(a[1..], b[1..])
  }

  lemma {:induction false} LexLessIrreflexive(a: string)
    ensures !LexLess(a, a)
    decreases |a|
  {
    if a != [] {
      LexLessIrreflexive(a[1..]);
    }
  }

  lemma {:induction false} LexLessTrichotomy(a: string, b: string)
    ensures LexLess(a, b) || a == b || LexLess(b, a)
    ensures !(LexLess(a, b) && LexLess(b, a))
    decreases |a|
  {
    if a != [] && b != [] && a[0] == b[0] {
      LexLessTrichotomy(a[1..], b[1..]);
      if a[1..] == b[1..] {
        assert a == [a[0]] + a[1..] && b == [b[0]] + b[1..];
      }
    }
  }

  lemma {:induction false} LexLessTransitive(a: string, b: string, c: string)
    requires LexLess(a, b) && LexLess(b, c)
    ensures LexLess(a, c)
    decreases |a|
  {
    if a != [] && a[0] == b[0] && b[0] == c[0] {
      LexLessTransitive(a[1..], b[1..], c[1..]);
    }
  }

  // ---------------------------------------------------------------------------------------------
  // strings

  /** `strings.ReplaceAll(s, string(q), string([]rune{q, q}))`: every `q` is doubled. */
  function DoubleRune(s: string, q: char): (r: string)
    ensures |r| == |s| + Count(s, q)
  {
    if s == [] then []
    else (if s[0] == q then [q, q] else [s[0]]) + DoubleRune(s[1..], q)
  }

  /** How many times `c` occurs in `s`. */
  function Count(s: string, c: char): nat
  {
    if s == [] then 0 else (if s[0] == c then 1 else 0) + Count(s[1..], c)
  }

  /** Joins `parts` with `sep` between consecutive elements, as the writers' `if i > 0` loops do. */
  function Join(parts: seq<string>, sep: string): string
  {
    if parts == [] then []
    else if |parts| == 1 then parts[0]
    else parts[0] + sep + Join(parts[1..], sep)
  }

  /** Each part preceded by the separator. */
  function Prefixed(parts: seq<string>, sep: string): string
  {
    if parts == [] then [] else sep + parts[0] + Prefixed(parts[1..], sep)
  }

  /** `Join` puts the separator before every part but the first. */
  lemma {:induction false} JoinPrefixed(parts: seq<string>, sep: string)
    requires |parts| >= 1
    ensures Join(parts, sep) == parts[0] + Prefixed(parts[1..], sep)
    decreases |parts|
  {
    if |parts| > 1 {
      JoinPrefixed(parts[1..], sep);
      assert parts[1..][1..] == parts[2..];
    }
  }

  /** `Prefixed` of a slice: its first part after the separator, then the rest of the slice. */
  lemma PrefixedSlice(parts: seq<string>, i: nat, k: nat, sep: string)
    requires i < k <= |parts|
    ensures Prefixed(parts[i..k], sep) == sep + parts[i] + Prefixed(parts[i + 1..k], sep)
  {
    assert parts[i..k][1..] == parts[i + 1..k];
  }

  /** `Join` of the first `k` parts: the first, then each of the others after the separator. */
  lemma JoinTake(parts: seq<string>, k: nat, sep: string)
    requires 1 <= k <= |parts|
    ensures Join(parts[..k], sep) == parts[0] + Prefixed(parts[1..k], sep)
  {
    JoinPrefixed(parts[..k], sep);
    assert parts[..k][1..] == parts[1..k];
  }

  /** Joining one more part puts the separator before it (when it is not the only one). */
  lemma {:induction false} JoinSnoc(parts: seq<string>, p: string, sep: string)
    ensures Join(parts + [p], sep) == if parts == [] then p else Join(parts, sep) + sep + p
    decreases |parts|
  {
    if |parts| == 1 {
      assert parts + [p] == [parts[0], p];
      assert [parts[0], p][1..] == [p];
    } else if |parts| > 1 {
      JoinSnoc(parts[1..], p, sep);
      assert (parts + [p])[1..] == parts[1..] + [p];
    }
  }

  /** `strings.TrimSuffix`. */
  function TrimSuffix(s: string, suffix: string): (r: string)
    ensures |s| >= |suffix| && s[|s| - |suffix|..] == suffix ==> r + suffix == s
    ensures !(|s| >= |suffix| && s[|s| - |suffix|..] == suffix) ==> r == s
  {
    if |s| >= |suffix| && s[|s| - |suffix|..] == suffix then s[..|s| - |suffix|] else s
  }

  /** `n` copies of `c`. */
  function Repeat(c: char, n: nat): (r: string)
    ensures |r| == n
    ensures forall i :: 0 <= i < n ==> r[i] == c
  {
    if n == 0 then [] else [c] + Repeat(c, n - 1)
  }

  /** `fmt.Sprintf("%-*s", width, s)`: left-justified, padded with spaces to `width` runes. */
  function PadRight(s: string, width: int): (r: string)
    ensures |s| >= width ==> r == s
    ensures |s| < width ==> |r| == width && r[..|s|] == s
    ensures forall i :: |s| <= i < |r| ==> r[i] == ' '
  {
    if |s| >= width then s else s + Repeat(' ', width - |s|)
  }

  // ---------------------------------------------------------------------------------------------
  // Decimal numbers: fmt's `%d` and strconv.Atoi

  const MinInt64: int := -0x8000_0000_0000_0000
  const MaxInt64: int := 0x7FFF_FFFF_FFFF_FFFF

  predicate IsDigit(c: char) { '0' <= c <= '9' }

  predicate AllDigits(s: string) { forall i :: 0 <= i < |s| ==> IsDigit(s[i]) }

  /** The value of a string of decimal digits, most significant first. */
  function DigitsValue(s: string): nat
    requires AllDigits(s)
  {
    if s == [] then 0 else DigitsValue(s[..|s| - 1]) * 10 + (s[|s| - 1] as int - '0' as int)
  }

  /** The decimal digits of a natural number, without leading zeros. */
  function NatString(n: nat): string
  {
    if n < 10 then [('0' as int + n) as char]
    else NatString(n / 10) + [('0' as int + n % 10) as char]
  }

  /** fmt's `%d`. */
  function DecimalString(n: int): string
  {
    if n < 0 then "-" + NatString(-n) else NatString(n)
  }

  /**
   * `strconv.Atoi` on a 64-bit platform: an optional sign, then at least one decimal digit and
   * nothing else, within the range of `int`; anything else is an error (`None`).
   */
  function Atoi(s: string): (r: Option<int>)
    ensures r.Some? ==> MinInt64 <= r.value <= MaxInt64
  {
    var signed := |s| > 0 && (s[0] == '-' || s[0] == '+');
    var body := if signed then s[1..] else s;
    if |body| == 0 || !AllDigits(body) then None
    else
      var v: int := if |s| > 0 && s[0] == '-' then -(DigitsValue(body) as int) else DigitsValue(body);
      if MinInt64 <= v <= MaxInt64 then Some(v) else None
  }

  lemma {:induction false} NatStringDigits(n: nat)
    ensures |NatString(n)| > 0
    ensures AllDigits(NatString(n))
    ensures DigitsValue(NatString(n)) == n
    decreases n
  {
    if n >= 10 {
      NatStringDigits(n / 10);
      var s := NatString(n);
      assert s[..|s| - 1] == NatString(n / 10);
    }
  }

  /** `Atoi` reads back what `%d` writes, for every 64-bit integer. */
  lemma AtoiDecimalString(n: int)
    requires MinInt64 <= n <= MaxInt64
    ensures Atoi(DecimalString(n)) == Some(n)
  {
    if n < 0 {
      NatStringDigits(-n);
      AtoiMinus(NatString(-n), -n);
    } else {
      NatStringDigits(n);
      AtoiDigits(NatString(n), n);
    }
  }

  /** Unsigned digits within range read back as their value. */
  lemma AtoiDigits(s: string, v: nat)
    requires |s| > 0 && AllDigits(s) && DigitsValue(s) == v <= MaxInt64
    ensures Atoi(s) == Some(v)
  {
    assert IsDigit(s[0]);
  }

  /** Digits after a minus sign read back as the negated value. */
  lemma AtoiMinus(s: string, v: nat)
    requires |s| > 0 && AllDigits(s) && DigitsValue(s) == v <= -MinInt64
    ensures Atoi("-" + s) == Some(-(v as int))
  {
    var t := "-" + s;
    assert t[0] == '-' && t[1..] == s;
  }

  /** `Atoi` rejects the empty string and any string with a rune other than a digit after the sign. */
  lemma AtoiRejects(s: string)
    ensures s == [] ==> Atoi(s) == None
    ensures |s| > 1 && !IsDigit(s[|s| - 1]) ==> Atoi(s) == None
    ensures |s| == 1 && (s[0] == '-' || s[0] == '+') ==> Atoi(s) == None
  {
  }
}
