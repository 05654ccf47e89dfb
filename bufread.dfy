/**
 * `bufread.BufferedReader`: a reader that keeps two fixed-size byte buffers, `left` (being
 * consumed, cursor `curPos`) and `right` (pre-fetched), so that `Peek` can look ahead across the
 * boundary between them without consuming anything.
 */
module BufRead {
  import opened StringUtil

  function Min(a: int, b: int): int { if a < b then a else b }

  /** The buffer size `OpenFile` uses. */
  const DefaultBufferSize: nat := 16 * 1024

  /**
   * The underlying `io.ReadCloser`, an open file. A read returns `min(len(p), readLimit, remaining)`
   * bytes and no error, or `(0, EOF)` once nothing is left, as an `*os.File` does; `readLimit`
   * stands for the short reads a pipe or terminal may return.
   */
  class Source {
    var data: seq<byte>
    const readLimit: nat

    constructor (data: seq<byte>, readLimit: nat)
      requires readLimit > 0
      ensures this.data == data && this.readLimit == readLimit
    {
      this.data := data;
      this.readLimit := readLimit;
    }

    method Read(p: array<byte>) returns (n: nat, eof: bool)
      modifies this, p
      ensures n == Min(p.Length, Min(readLimit, |old(data)|))
      ensures eof <==> p.Length > 0 && old(data) == []
      ensures p[..n] == old(data)[..n]
      ensures data == old(data)[n..]
    {
      n := Min(p.Length, Min(readLimit, |data|));
      eof := p.Length > 0 && data == [];
      forall i | 0 <= i < n {
        p[i] := data[i];
      }
      data := data[n..];
    }
  }

  /** Two splits of the same stream whose tails are suffixes of one another agree on the prefix. */
  lemma CancelSuffix<T>(c: seq<T>, c0: seq<T>, u0: seq<T>, i: nat, src: seq<T>)
    requires i <= |u0| && c + u0[i..] == src && c0 + u0 == src
    ensures c == c0 + u0[..i]
  {
    assert u0 == u0[..i] + u0[i..];
    assert src == (c0 + u0[..i]) + u0[i..];
    assert |c| == |c0 + u0[..i]|;
    assert c == src[..|c|];
  }

  /** `p` holds the first `i` bytes of `u`, and its original contents `p0` from there on. */
  ghost predicate Filled(p: array<byte>, p0: seq<byte>, u: seq<byte>, i: nat)
    reads p
  {
    && |p0| == p.Length && i <= |u| && i <= p.Length
    && forall k :: 0 <= k < p.Length ==> p[k] == if k < i then u[k] else p0[k]
  }

  datatype PeekStatus = PeekOk | PeekEOF | PeekTooLong

  class BufferedReader {
    const rd: Source
    /** `left` and `right`; `hasLeft`/`hasRight` are false where the source's slice is still nil. */
    var left: array<byte>
    var right: array<byte>
    var hasLeft: bool
    var hasRight: bool
    var leftLength: nat
    var rightLength: nat
    var curPos: nat
    const bufferSize: nat
    var isEOF: bool

    /** Every byte the file holds, and the bytes handed out so far by `ReadByte` and `Read`. */
    ghost const source: seq<byte>
    ghost var consumed: seq<byte>
    ghost var Repr: set<object>

    ghost predicate Valid()
      reads this, Repr
    {
      && Repr == {this, rd, left, right}
      && left != right
      && Shape()
      && InOrder()
    }

    /** The consumed bytes, then the buffered ones, then the file's remaining ones, make up the file. */
    ghost predicate InOrder()
      reads this, left, right, rd
    {
      && curPos <= leftLength <= left.Length && rightLength <= right.Length
      && consumed + Unconsumed() == source
      && (isEOF ==> rd.data == [])
    }

    /** How the lengths, the nil tests and `isEOF` relate. */
    ghost predicate Shape()
      reads this
    {
      && bufferSize > 0 && rd.readLimit > 0
      && leftLength <= left.Length && rightLength <= right.Length
      && (hasLeft ==> left.Length == bufferSize)
      && (hasRight ==> right.Length == bufferSize)
      && (!hasLeft ==> leftLength == 0 && curPos == 0 && !hasRight && !isEOF)
      && (!hasRight ==> rightLength == 0)
      && curPos <= leftLength
      // a read that returns no bytes is the one that sets `isEOF`
      && (hasRight && !isEOF ==> rightLength > 0)
      && (hasLeft && !hasRight ==> isEOF)
      && (isEOF ==> rightLength == 0)
    }

    /** The bytes held in the two buffers and not yet consumed, in stream order. */
    ghost function Buffered(): seq<byte>
      reads this, left, right
      requires curPos <= leftLength <= left.Length && rightLength <= right.Length
    {
      left[curPos..leftLength] + right[..rightLength]
    }

    /** Every byte not yet consumed: what the buffers hold, then what the file still has. */
    ghost function Unconsumed(): seq<byte>
      reads this, left, right, rd
      requires curPos <= leftLength <= left.Length && rightLength <= right.Length
    {
      Buffered() + rd.data
    }

    /** The count a single read of the file returns when `avail` bytes are left. */
    ghost function ReadCount(avail: nat): nat
    {
      Min(avail, Min(bufferSize, rd.readLimit))
    }

    /** How much the first fill buffers: one read into `left` and, unless it hit EOF, one into `right`. */
    ghost function FirstFill(avail: nat): nat
    {
      var c1 := ReadCount(avail);
      c1 + (if c1 == 0 then 0 else ReadCount(avail - c1))
    }

    /** `OpenFileSize`: nothing is read until the first access. */
    constructor OpenFileSize(rd: Source, bufferSize: nat)
      requires bufferSize > 0 && rd.readLimit > 0
      ensures Valid() && fresh(Repr - {rd})
      ensures this.rd == rd && this.bufferSize == bufferSize
      ensures !hasLeft && !hasRight && curPos == 0 && !isEOF
      ensures source == rd.data && consumed == [] && Unconsumed() == rd.data
    {
      this.rd := rd;
      this.bufferSize := bufferSize;
      left := new byte[0];
      right := new byte[0];
      hasLeft, hasRight := false, false;
      leftLength, rightLength, curPos := 0, 0, 0;
      isEOF := false;
      source := rd.data;
      consumed := [];
      new;
      Repr := {this, rd, left, right};
    }

    /**
     * The common tail of both branches of `swapAndFill`: allocate a fresh `right` and read into it,
     * once `left` holds the bytes to consume next and nothing else is buffered.
     */
    method ReadRight()
      requires Repr == {this, rd, left, right} && bufferSize > 0 && rd.readLimit > 0
      requires hasLeft && left.Length == bufferSize && curPos <= leftLength <= left.Length && !isEOF
      requires rightLength == 0
      requires consumed + (left[curPos..leftLength] + rd.data) == source
      modifies this, rd
      ensures Valid() && hasRight && fresh(right) && Repr == {this, rd, left, right}
      ensures left == old(left) && curPos == old(curPos) && leftLength == old(leftLength)
      ensures consumed == old(consumed)
      ensures Unconsumed() == old(left[curPos..leftLength] + rd.data)
      ensures rightLength == ReadCount(|old(rd.data)|)
    {
      ghost var kept := left[curPos..leftLength];
      var buf, n, e := ReadFresh();
      right := buf;
      hasRight := true;
      isEOF := e;
      rightLength := n;
      Repr := {this, rd, left, right};
      assert left[curPos..leftLength] == kept;
      assert Buffered() == kept + right[..n];
      assert InOrder();
      assert Shape();
    }

    /** One read of the file into a newly allocated buffer of `bufferSize` bytes. */
    method ReadFresh() returns (buf: array<byte>, n: nat, eof: bool)
      requires bufferSize > 0
      modifies rd
      ensures fresh(buf) && buf.Length == bufferSize
      ensures n == ReadCount(|old(rd.data)|) && n <= buf.Length
      ensures old(rd.data) == buf[..n] + rd.data
      ensures eof <==> old(rd.data) == []
    {
      buf := new byte[bufferSize];
      ghost var d0 := rd.data;
      n, eof := rd.Read(buf);
      assert d0 == d0[..n] + d0[n..];
    }

    /** The promoting branch of `swapAndFill`: `right` becomes `left`, and a fresh `right` is read. */
    method Promote()
      requires Valid() && hasRight && !isEOF && curPos >= leftLength
      modifies Repr
      ensures Valid() && fresh(Repr - old(Repr))
      ensures consumed == old(consumed) && Unconsumed() == old(Unconsumed())
      ensures curPos == 0 && leftLength == old(rightLength) && left == old(right)
      ensures curPos < leftLength
    {
      ghost var promoted := right[..rightLength];
      assert Buffered() == promoted;
      left := right;
      leftLength := rightLength;
      curPos := 0;
      rightLength := 0;
      Repr := {this, rd, left, right};
      assert left[curPos..leftLength] == promoted;
      ReadRight();
    }

    /** The first-fill branch of `swapAndFill`: read `left`, then, unless that hit EOF, read `right`. */
    method Fill()
      requires Valid() && !hasLeft
      modifies Repr
      ensures Valid() && fresh(Repr - old(Repr))
      ensures consumed == old(consumed) && Unconsumed() == old(Unconsumed())
      ensures hasLeft && curPos == 0
      ensures |Buffered()| == FirstFill(|old(Unconsumed())|)
      ensures leftLength == 0 ==> isEOF
    {
      ghost var d0 := rd.data;
      assert Unconsumed() == d0;
      var buf, n, e := ReadFresh();
      left := buf;
      hasLeft := true;
      isEOF := e;
      leftLength := n;
      curPos := 0;
      Repr := {this, rd, left, right};
      assert left[curPos..leftLength] == buf[..n];
      if !isEOF {
        ReadRight();
      } else {
        rightLength := 0;
        assert Buffered() == buf[..n] + right[..0];
      }
      assert Unconsumed() == d0;
    }

    /**
     * `swapAndFill`: while `left` is exhausted, promote `right` to `left` and refill `right`, or on
     * the first call fill `left` and `right`. Never consumes anything.
     */
    method SwapAndFill() returns (eof: bool)
      requires Valid()
      modifies Repr
      ensures Valid() && fresh(Repr - old(Repr))
      ensures consumed == old(consumed) && Unconsumed() == old(Unconsumed())
      ensures old(isEOF) ==> isEOF
      ensures eof <==> old(Unconsumed()) == []
      ensures eof ==> isEOF && curPos >= leftLength
      ensures !eof ==> curPos < leftLength
      ensures old(curPos < leftLength) ==>
        left == old(left) && right == old(right) && curPos == old(curPos) && Buffered() == old(Buffered())
      ensures !old(hasLeft) ==> |Buffered()| == FirstFill(|old(Unconsumed())|)
    {
      ghost var wasFresh := !hasLeft;
      while leftLength <= 0 || curPos >= leftLength
        invariant Valid() && fresh(Repr - old(Repr))
        invariant consumed == old(consumed) && Unconsumed() == old(Unconsumed())
        invariant old(isEOF) ==> isEOF
        invariant old(curPos < leftLength) ==>
          && left == old(left) && right == old(right) && curPos == old(curPos)
          && leftLength == old(leftLength) && Buffered() == old(Buffered())
        invariant wasFresh ==> !hasLeft || |Buffered()| == FirstFill(|old(Unconsumed())|)
        invariant !wasFresh ==> hasLeft
        invariant wasFresh && hasLeft ==> curPos < leftLength || isEOF
        decreases (if hasLeft then 0 else 4) + (if isEOF then 0 else 2) + (if curPos < leftLength then 0 else 1)
      {
        if isEOF {
          return true;
        }
        if hasRight {
          Promote();
        } else {
          Fill();
        }
      }
      return false;
    }

    /** `ReadByte`: the next byte of the stream, or EOF once every byte has been consumed. */
    method ReadByte() returns (b: byte, eof: bool)
      requires Valid()
      modifies Repr
      ensures Valid() && fresh(Repr - old(Repr))
      ensures old(isEOF) ==> isEOF
      ensures eof <==> old(Unconsumed()) == []
      ensures eof ==> consumed == old(consumed) && Unconsumed() == old(Unconsumed())
      ensures !eof ==>
        b == old(Unconsumed())[0] && consumed == old(consumed) + [b] && Unconsumed() == old(Unconsumed())[1..]
    {
      if !hasLeft || curPos >= leftLength {
        var e := SwapAndFill();
        if e {
          return 0, true;
        }
      }
      b := Consume();
      eof := false;
    }

    /** The step `ReadByte` and `Read` share: hand out `left[curPos]` and advance the cursor. */
    method Consume() returns (b: byte)
      requires Valid() && curPos < leftLength
      modifies this
      ensures Valid() && Repr == old(Repr) && isEOF == old(isEOF)
      ensures left == old(left) && leftLength == old(leftLength) && curPos == old(curPos) + 1
      ensures b == old(Unconsumed())[0] && consumed == old(consumed) + [b]
      ensures Unconsumed() == old(Unconsumed())[1..]
    {
      ghost var u := Unconsumed();
      b := left[curPos];
      assert left[curPos..leftLength] == [b] + left[curPos + 1..leftLength];
      curPos := curPos + 1;
      consumed := consumed + [b];
      assert u == [b] + Unconsumed();
    }

    /**
     * `Read(p)`: copies the next bytes of the stream into `p`, refilling across buffer boundaries;
     * the count is short only at the end of the stream, and EOF is reported only when nothing is
     * left at all.
     */
    method Read(p: array<byte>) returns (n: nat, eof: bool)
      requires Valid() && p !in Repr
      modifies Repr, p
      ensures Valid() && fresh(Repr - old(Repr))
      ensures old(isEOF) ==> isEOF
      ensures eof <==> old(Unconsumed()) == []
      ensures n == Min(p.Length, |old(Unconsumed())|)
      ensures p[..n] == old(Unconsumed())[..n]
      ensures forall k :: n <= k < p.Length ==> p[k] == old(p[k])
      ensures consumed == old(consumed) + p[..n]
      ensures Unconsumed() == old(Unconsumed())[n..]
    {
      if !hasLeft || curPos >= leftLength {
        var e := SwapAndFill();
        if e {
          return 0, true;
        }
      }
      n, eof := CopyOut(p);
    }

    /** The copying loop of `Read`, entered with at least one byte left in the stream. */
    method CopyOut(p: array<byte>) returns (n: nat, eof: bool)
      requires Valid() && p !in Repr && Unconsumed() != []
      modifies Repr, p
      ensures Valid() && fresh(Repr - old(Repr))
      ensures old(isEOF) ==> isEOF
      ensures !eof
      ensures n == Min(p.Length, |old(Unconsumed())|)
      ensures p[..n] == old(Unconsumed())[..n]
      ensures forall k :: n <= k < p.Length ==> p[k] == old(p[k])
      ensures consumed == old(consumed) + p[..n]
      ensures Unconsumed() == old(Unconsumed())[n..]
    {
      ghost var u0 := Unconsumed();
      ghost var p0 := p[..];
      n, eof := 0, false;
      var i := 0;
      while i < p.Length
        invariant Valid() && fresh(Repr - old(Repr)) && p !in Repr
        invariant old(isEOF) ==> isEOF
        invariant n == i && i <= p.Length && i <= |u0| && !eof
        invariant Unconsumed() == u0[i..]
        invariant Filled(p, p0, u0, i)
      {
        var e := CopyStep(p, i, u0, p0);
        if e {
          eof := n == 0;
          break;
        }
        n := n + 1;
        i := i + 1;
      }
      assert p[..n] == u0[..n];
      CancelSuffix(consumed, old(consumed), u0, i, source);
    }

    /** One turn of `CopyOut`'s loop: `p[i]` takes the next byte of `u0`, unless the stream is at its end. */
    method CopyStep(p: array<byte>, i: nat, ghost u0: seq<byte>, ghost p0: seq<byte>) returns (e: bool)
      requires Valid() && p !in Repr && i < p.Length && i <= |u0| && Unconsumed() == u0[i..] && Filled(p, p0, u0, i)
      modifies Repr, p
      ensures Valid() && fresh(Repr - old(Repr)) && p !in Repr
      ensures old(isEOF) ==> isEOF
      ensures e <==> i == |u0|
      ensures e ==> Unconsumed() == u0[i..] && Filled(p, p0, u0, i)
      ensures !e ==> Unconsumed() == u0[i + 1..] && Filled(p, p0, u0, i + 1)
    {
      e := ReadInto(p, i);
      if !e {
        assert u0[i..][1..] == u0[i + 1..];
      }
    }

    /** One pass of `Read`'s loop: `ReadByte`'s step, storing the byte at `p[i]`. */
    method ReadInto(p: array<byte>, i: nat) returns (eof: bool)
      requires Valid() && p !in Repr && i < p.Length
      modifies Repr, p
      ensures Valid() && fresh(Repr - old(Repr)) && p !in Repr
      ensures old(isEOF) ==> isEOF
      ensures eof <==> old(Unconsumed()) == []
      ensures eof ==> Unconsumed() == old(Unconsumed()) && p[i] == old(p[i])
      ensures !eof ==> p[i] == old(Unconsumed())[0] && Unconsumed() == old(Unconsumed())[1..]
      ensures forall k :: 0 <= k < p.Length && k != i ==> p[k] == old(p[k])
    {
      var b;
      b, eof := ReadByte();
      if !eof {
        p[i] := b;
      }
    }

    /**
     * `Peek(p)`: copies the bytes after the cursor into `p` without consuming them, first from
     * `left`, then from `right`; it refills only as `SwapAndFill` does, so its EOF reports a
     * shortage within the two buffers, not in the file.
     */
    method Peek(p: array<byte>) returns (n: nat, status: PeekStatus)
      requires Valid() && p !in Repr
      modifies Repr, p
      ensures Valid() && fresh(Repr - old(Repr))
      ensures consumed == old(consumed) && Unconsumed() == old(Unconsumed())
      ensures old(isEOF) ==> isEOF
      ensures p.Length > bufferSize ==>
        && status == PeekTooLong && n == 0
        && left == old(left) && right == old(right) && curPos == old(curPos)
        && leftLength == old(leftLength) && rightLength == old(rightLength) && isEOF == old(isEOF)
        && Repr == old(Repr) && unchanged(old(Repr)) && unchanged(p)
      ensures p.Length <= bufferSize && old(Unconsumed()) == [] ==> status == PeekEOF && n == 0
      ensures p.Length <= bufferSize && old(Unconsumed()) != [] ==>
        && curPos < leftLength
        && n == Min(p.Length, |Buffered()|)
        && p[..n] == Buffered()[..n]
        && (status == PeekEOF <==> |Buffered()| < p.Length)
        && (status == PeekOk <==> |Buffered()| >= p.Length)
      ensures p[n..] == old(p[n..])
      ensures old(curPos < leftLength) ==>
        left == old(left) && right == old(right) && curPos == old(curPos) && Buffered() == old(Buffered())
      ensures p.Length <= bufferSize && !old(hasLeft) ==> |Buffered()| == FirstFill(|old(Unconsumed())|)
    {
      if p.Length > bufferSize {
        return 0, PeekTooLong;
      }
      if !hasLeft || curPos >= leftLength {
        var e := SwapAndFill();
        if e {
          return 0, PeekEOF;
        }
      }
      n, status := PeekAhead(p);
    }

    /** The copying loop of `Peek`: reads `left` from the cursor, then `right` from its start. */
    method PeekAhead(p: array<byte>) returns (n: nat, status: PeekStatus)
      requires Valid() && p != left && p != right && curPos < leftLength
      modifies p
      ensures status != PeekTooLong
      ensures n == Min(p.Length, |Buffered()|)
      ensures p[..n] == Buffered()[..n]
      ensures status == PeekEOF <==> |Buffered()| < p.Length
      ensures p[n..] == old(p[n..])
    {
      ghost var buffered := Buffered();
      var j := 0;
      n := 0;
      var i := 0;
      while i < p.Length
        invariant n == i && i <= p.Length && i <= |buffered|
        invariant j == if curPos + i <= leftLength then 0 else curPos + i - leftLength
        invariant p[..i] == buffered[..i]
        invariant forall k :: i <= k < p.Length ==> p[k] == old(p[k])
      {
        if curPos + i < leftLength {
          p[i] := left[curPos + i];
          n := n + 1;
        } else {
          if j < rightLength {
            p[i] := right[j];
            n := n + 1;
            j := j + 1;
          } else {
            return n, PeekEOF;
          }
        }
        assert p[..i + 1] == p[..i] + [buffered[i]];
        i := i + 1;
      }
      status := PeekOk;
    }
  }

  /** Two `Peek`s with nothing read in between return the same count, status and bytes. */
  method PeekTwice(br: BufferedReader, p: array<byte>, q: array<byte>)
    returns (n1: nat, s1: PeekStatus, n2: nat, s2: PeekStatus)
    requires br.Valid() && p !in br.Repr && q !in br.Repr && p != q && p.Length == q.Length
    modifies br.Repr, p, q
    ensures br.Valid()
    ensures n1 <= p.Length && n2 <= q.Length
    ensures n1 == n2 && s1 == s2 && p[..n1] == q[..n2]
    ensures br.consumed == old(br.consumed)
  {
    n1, s1 := br.Peek(p);
    ghost var first := p[..n1];
    n2, s2 := br.Peek(q);
    assert p[..n1] == first;
  }

  /**
   * `Peek(p)` then `Read(q)` of the same length: the read returns the peeked bytes first, and
   * exactly those when the peek was not short.
   */
  method PeekThenRead(br: BufferedReader, p: array<byte>, q: array<byte>)
    returns (n1: nat, s1: PeekStatus, n2: nat, eof: bool)
    requires br.Valid() && p !in br.Repr && q !in br.Repr && p != q && p.Length == q.Length
    requires p.Length <= br.bufferSize
    modifies br.Repr, p, q
    ensures br.Valid()
    ensures n1 <= n2 <= q.Length
    ensures q[..n1] == p[..n1]
    ensures s1 == PeekOk ==> n2 == n1
    ensures br.consumed == old(br.consumed) + q[..n2]
  {
    n1, s1 := br.Peek(p);
    ghost var peeked := p[..n1];
    n2, eof := br.Read(q);
    assert p[..n1] == peeked;
    assert q[..n1] == q[..n2][..n1];
  }
}
