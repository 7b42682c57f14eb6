/** rt_ringbuffer.c: a ring buffer with mirror bits, as a bounded queue of bytes. */
module RingBuffer {

  import opened Seqs

  datatype Status = EMPTY | FULL | HALFFULL

  function Min(a: nat, b: nat): nat { if a < b then a else b }

  /** The last `n` bytes of `s`, or all of them. */
  function LastOf(s: seq<byte>, n: nat): seq<byte> {
    if |s| <= n then s else s[|s| - n..]
  }

  // ---------- the queue in the pool ----------

  /** Where the indices may be: in the same mirror the writer is ahead, in different ones the
      reader. */
  predicate Placed(buf: seq<byte>, size: nat, same: bool, r: nat, w: nat) {
    && size <= |buf| && size <= 0x7FFF
    && (if size == 0 then r == w == 0 else r < size && w < size)
    && (if same then r <= w else w <= r)
  }

  /** The bytes from the read index to the write index, across the end of the pool when the
      two are in different mirrors. */
  function Queue(buf: seq<byte>, size: nat, same: bool, r: nat, w: nat): (q: seq<byte>)
    requires Placed(buf, size, same, r, w)
    ensures |q| <= size
  {
    if same then buf[r..w] else buf[r..size] + buf[..w]
  }

  /** memcpy */
  function Copied(buf: seq<byte>, at: nat, data: seq<byte>): (after: seq<byte>)
    requires at + |data| <= |buf|
    ensures |after| == |buf|
  {
    buf[..at] + data + buf[at + |data|..]
  }

  /** Two copies, up to the end of the ring and on from its start. */
  function CopiedAround(buf: seq<byte>, size: nat, w: nat, data: seq<byte>): (after: seq<byte>)
    requires w <= size <= |buf| && size - w <= |data| <= size
    ensures |after| == |buf|
  {
    Copied(Copied(buf, w, data[..size - w]), 0, data[size - w..])
  }

  lemma CopiedAroundParts(buf: seq<byte>, size: nat, w: nat, data: seq<byte>)
    requires w <= size <= |buf| && size - w <= |data| <= size
    ensures var after, n := CopiedAround(buf, size, w, data), |data| - (size - w);
            && after[..n] == data[size - w..] && after[w..size] == data[..size - w]
            && after[n..w] == buf[n..w]
  {
    var d1, d2 := data[..size - w], data[size - w..];
    var mid := Copied(buf, w, d1);
    CopiedParts(buf, w, d1);
    CopiedParts(mid, 0, d2);
    hide Copied;
    var after, n := Copied(mid, 0, d2), |d2|;
    Inside(after, mid, n, n, w);
    Inside(after, mid, n, w, size);
    Shorter(mid, w, n);
    Shorter(buf, w, n);
    assert w + |d1| == size;
  }

  lemma CopiedParts(buf: seq<byte>, at: nat, data: seq<byte>)
    requires at + |data| <= |buf|
    ensures var after, e := Copied(buf, at, data), at + |data|;
            after[..at] == buf[..at] && after[at..e] == data && after[e..] == buf[e..]
  {
  }

  lemma Shorter(a: seq<byte>, w: nat, n: nat)
    requires n <= w <= |a|
    ensures a[n..w] == a[..w][n..]
  {
  }

  /** Sequences equal from `n` on are equal on any later stretch. */
  lemma Inside(a: seq<byte>, b: seq<byte>, n: nat, i: nat, j: nat)
    requires n <= i <= j <= |a| == |b| && a[n..] == b[n..]
    ensures a[i..j] == b[i..j]
  {
    forall k | i <= k < j ensures a[k] == b[k] {
      assert a[k] == a[n..][k - n] && b[k] == b[n..][k - n];
    }
  }

  lemma AppendBefore(buf: seq<byte>, size: nat, same: bool, r: nat, w: nat, data: seq<byte>)
    requires Placed(buf, size, same, r, w) && w + |data| < size
    requires |Queue(buf, size, same, r, w)| + |data| <= size
    ensures Placed(Copied(buf, w, data), size, same, r, w + |data|)
    ensures Queue(Copied(buf, w, data), size, same, r, w + |data|) == Queue(buf, size, same, r, w) + data
  {
    var after := Copied(buf, w, data);
    assert after[..w] == buf[..w] && after[w..w + |data|] == data;
    if same {
      assert after[r..w + |data|] == after[..w][r..] + data;
      assert after[..w][r..] == buf[r..w];
    } else {
      assert after[..w + |data|] == buf[..w] + data;
      assert after[r..size] == buf[r..size];
    }
  }

  lemma AppendAround(buf: seq<byte>, size: nat, same: bool, r: nat, w: nat, data: seq<byte>)
    requires Placed(buf, size, same, r, w) && size - w <= |data|
    requires |Queue(buf, size, same, r, w)| + |data| <= size
    ensures var n := |data| - (size - w);
            && Placed(CopiedAround(buf, size, w, data), size, !same, r, n)
            && Queue(CopiedAround(buf, size, w, data), size, !same, r, n) == Queue(buf, size, same, r, w) + data
  {
    hide CopiedAround, Copied;
    var after, n := CopiedAround(buf, size, w, data), |data| - (size - w);
    CopiedAroundParts(buf, size, w, data);
    if size == 0 {
      return;
    }
    assert same && n <= r;
    AppendParts(after, buf, size, r, w, data[..size - w], data[size - w..]);
    assert data == data[..size - w] + data[size - w..];
  }

  lemma AppendParts(after: seq<byte>, buf: seq<byte>, size: nat, r: nat, w: nat, d1: seq<byte>, d2: seq<byte>)
    requires |d2| <= r <= w <= size <= |after| && w <= |buf|
    requires after[..|d2|] == d2 && after[w..size] == d1 && after[|d2|..w] == buf[|d2|..w]
    ensures after[r..size] + after[..|d2|] == buf[r..w] + (d1 + d2)
  {
    Pieces(after, |d2|, r, w, size);
    Pieces(buf, |d2|, r, w, w);
    assert (buf[r..w] + d1) + d2 == buf[r..w] + (d1 + d2);
  }

  lemma Pieces(buf: seq<byte>, n: nat, r: nat, w: nat, e: nat)
    requires n <= r <= w <= e <= |buf|
    ensures buf[n..w][r - n..] == buf[r..w] && buf[r..e] == buf[r..w] + buf[w..e]
  {
  }

  /** Writing past the reader leaves the last `size` bytes, with the reader where the writer
      stops. */
  lemma OverwriteBefore(buf: seq<byte>, size: nat, r: nat, w: nat, data: seq<byte>)
    requires Placed(buf, size, false, r, w) && w + |data| < size
    requires |Queue(buf, size, false, r, w)| + |data| > size
    ensures var e := w + |data|;
            && Placed(Copied(buf, w, data), size, false, e, e)
            && Queue(Copied(buf, w, data), size, false, e, e) == LastOf(Queue(buf, size, false, r, w) + data, size)
  {
    var after, e := Copied(buf, w, data), w + |data|;
    var all := Queue(buf, size, false, r, w) + data;
    assert after[e..size] == buf[e..size] && after[..e] == buf[..w] + data;
    assert all == buf[r..size] + (buf[..w] + data);
    assert LastOf(all, size) == buf[r..size][e - r..] + (buf[..w] + data);
  }

  lemma OverwriteAround(buf: seq<byte>, size: nat, r: nat, w: nat, data: seq<byte>)
    requires Placed(buf, size, false, r, w) && size - w <= |data| <= size
    requires |Queue(buf, size, false, r, w)| + |data| > size
    ensures var e := |data| - (size - w);
            && Placed(CopiedAround(buf, size, w, data), size, false, e, e)
            && Queue(CopiedAround(buf, size, w, data), size, false, e, e) ==
               LastOf(Queue(buf, size, false, r, w) + data, size)
  {
    hide CopiedAround, Copied;
    var after, e := CopiedAround(buf, size, w, data), |data| - (size - w);
    CopiedAroundParts(buf, size, w, data);
    var all := Queue(buf, size, false, r, w) + data;
    assert data == data[..size - w] + data[size - w..];
    Pieces(after, e, e, w, size);
    assert LastOf(all, size) == buf[..w][e..] + data;
    assert buf[..w][e..] == buf[e..w];
  }

  /** What the forced put leaves when it does not reach the end of the pool. */
  lemma ForceBefore(buf: seq<byte>, size: nat, same: bool, r: nat, w: nat, data: seq<byte>)
    requires Placed(buf, size, same, r, w) && w + |data| < size
    ensures var q, e := Queue(buf, size, same, r, w), w + |data|;
            var r' := if |q| + |data| > size then e else r;
            && Placed(Copied(buf, w, data), size, same, r', e)
            && Queue(Copied(buf, w, data), size, same, r', e) == LastOf(q + data, size)
  {
    if |Queue(buf, size, same, r, w)| + |data| > size {
      assert !same;
      OverwriteBefore(buf, size, r, w, data);
    } else {
      AppendBefore(buf, size, same, r, w, data);
    }
  }

  /** And when it does; overflowing with equal mirrors, the queue comes out empty. */
  lemma ForceAround(buf: seq<byte>, size: nat, same: bool, r: nat, w: nat, data: seq<byte>)
    requires Placed(buf, size, same, r, w) && size - w <= |data| <= size
    ensures var q, e := Queue(buf, size, same, r, w), |data| - (size - w);
            var over := |q| + |data| > size;
            var r', same' := if over then e else r, if over then same else !same;
            && Placed(CopiedAround(buf, size, w, data), size, same', r', e)
            && Queue(CopiedAround(buf, size, w, data), size, same', r', e) ==
               if over && same then [] else LastOf(q + data, size)
  {
    if |Queue(buf, size, same, r, w)| + |data| <= size {
      AppendAround(buf, size, same, r, w, data);
    } else if !same {
      OverwriteAround(buf, size, r, w, data);
    }
  }

  lemma RemoveBefore(buf: seq<byte>, size: nat, same: bool, r: nat, w: nat, n: nat)
    requires Placed(buf, size, same, r, w) && n <= |Queue(buf, size, same, r, w)| && r + n < size
    ensures Placed(buf, size, same, r + n, w)
    ensures buf[r..r + n] == Queue(buf, size, same, r, w)[..n]
    ensures Queue(buf, size, same, r + n, w) == Queue(buf, size, same, r, w)[n..]
  {
  }

  lemma RemoveAround(buf: seq<byte>, size: nat, same: bool, r: nat, w: nat, n: nat)
    requires Placed(buf, size, same, r, w) && r < size && size - r <= n <= |Queue(buf, size, same, r, w)|
    ensures var e := n - (size - r);
            && Placed(buf, size, !same, e, w)
            && buf[r..size] + buf[..e] == Queue(buf, size, same, r, w)[..n]
            && Queue(buf, size, !same, e, w) == Queue(buf, size, same, r, w)[n..]
  {
  }

  // ---------- the buffer ----------

  class RingBuffer {
    const pool: array<byte>
    const size: nat
    var readMirror: bool
    var readIndex: nat
    var writeMirror: bool
    var writeIndex: nat

    ghost predicate Valid()
      reads this, pool
    {
      Placed(pool[..], size, readMirror == writeMirror, readIndex, writeIndex)
    }

    ghost function Contents(): (s: seq<byte>)
      requires Valid()
      reads this, pool
    {
      Queue(pool[..], size, readMirror == writeMirror, readIndex, writeIndex)
    }

    /** ringbuffer_init; the size is rounded down to a multiple of eight. */
    constructor (pool: array<byte>, size: nat)
      requires 0 < size <= 0x7FFF && size <= pool.Length
      ensures Valid() && Contents() == [] && this.pool == pool && this.size == size - size % 8
    {
      readMirror, readIndex, writeMirror, writeIndex := false, 0, false, 0;
      this.pool, this.size := pool, size - size % 8;
    }

    /** ringbuffer_reset */
    method Reset()
      requires Valid()
      modifies this
      ensures Valid() && Contents() == []
    {
      readMirror, readIndex, writeMirror, writeIndex := false, 0, false, 0;
    }

    /** ringbuffer_status */
    function Status(): Status
      reads this
    {
      if readIndex == writeIndex then (if readMirror == writeMirror then EMPTY else FULL) else HALFFULL
    }

    /** ringbuffer_data_len */
    function DataLen(): (n: nat)
      requires Valid()
      reads this, pool
      ensures n == |Contents()|
    {
      match Status()
      case EMPTY => 0
      case FULL => size
      case HALFFULL =>
        if writeIndex > readIndex then writeIndex - readIndex else size - (readIndex - writeIndex)
    }

    /** ringbuffer_space_len */
    function SpaceLen(): (n: nat)
      requires Valid()
      reads this, pool
      ensures n == size - |Contents()|
    {
      size - DataLen()
    }

    method CopyIn(at: nat, data: seq<byte>)
      requires at + |data| <= pool.Length
      modifies pool
      ensures pool[..] == Copied(old(pool[..]), at, data)
    {
      forall i | 0 <= i < |data| {
        pool[at + i] := data[i];
      }
    }

    method CopyAround(data: seq<byte>)
      requires writeIndex <= size <= pool.Length && size - writeIndex <= |data| <= size
      modifies pool
      ensures pool[..] == CopiedAround(old(pool[..]), size, writeIndex, data)
    {
      hide Copied;
      CopyIn(writeIndex, data[..size - writeIndex]);
      CopyIn(0, data[size - writeIndex..]);
    }

    /** ringbuffer_put: as many bytes as fit are appended. */
    method Put(data: seq<byte>) returns (n: nat)
      requires Valid() && |data| <= 0xFFFF
      modifies this, pool
      ensures Valid() && n == Min(|data|, size - |old(Contents())|)
      ensures Contents() == old(Contents()) + data[..n]
    {
      hide Queue, Copied, CopiedAround;
      var space := SpaceLen();
      if space == 0 {
        assert Contents() + [] == Contents();
        return 0;
      }
      n := |data|;
      if space < n {
        n := space;
      }
      if size - writeIndex > n {
        AppendBefore(pool[..], size, readMirror == writeMirror, readIndex, writeIndex, data[..n]);
        CopyIn(writeIndex, data[..n]);
        writeIndex := writeIndex + n;
        return;
      }
      AppendAround(pool[..], size, readMirror == writeMirror, readIndex, writeIndex, data[..n]);
      CopyAround(data[..n]);
      writeMirror := !writeMirror;
      writeIndex := n - (size - writeIndex);
    }

    /** The case that goes wrong: the data overflow a buffer whose two mirrors are equal. Both
        mirrors are then flipped, and the full buffer reads as empty. */
    ghost predicate FlipsBoth(data: seq<byte>)
      requires Valid()
      reads this, pool
    {
      readMirror == writeMirror && Min(|data|, size) > size - |Contents()|
    }

    /** ringbuffer_put_force: the last `size` bytes of old contents and data stay, unless both
        mirrors flip, when nothing does. */
    method PutForce(data0: seq<byte>) returns (n: nat)
      requires Valid() && |data0| <= 0xFFFF
      modifies this, pool
      ensures Valid() && n == Min(|data0|, size)
      ensures Contents() == if old(FlipsBoth(data0)) then [] else LastOf(old(Contents()) + data0, size)
    {
      var data := data0;
      if |data| > size {
        data := data[|data| - size..];
      }
      LastOfBoth(Contents(), data0, size);
      assert data == LastOf(data0, size);
      hide Queue, LastOf;
      n := ForceIn(data);
    }

    /** ringbuffer_put_force after the data are cut to size. */
    method ForceIn(data: seq<byte>) returns (n: nat)
      requires Valid() && |data| <= size
      modifies this, pool
      ensures Valid() && n == |data|
      ensures Contents() == if old(FlipsBoth(data)) then [] else LastOf(old(Contents()) + data, size)
    {
      hide Queue, Copied, CopiedAround, LastOf;
      var space := SpaceLen();
      n := |data|;
      Reach(pool[..], size, readMirror == writeMirror, readIndex, writeIndex);
      if size - writeIndex > n {
        ForceBefore(pool[..], size, readMirror == writeMirror, readIndex, writeIndex, data);
        CopyIn(writeIndex, data);
        writeIndex := writeIndex + n;
        if n > space {
          readIndex := writeIndex;
        }
        return;
      }
      ForceAround(pool[..], size, readMirror == writeMirror, readIndex, writeIndex, data);
      CopyAround(data);
      writeMirror := !writeMirror;
      writeIndex := n - (size - writeIndex);
      if n > space {
        readMirror := !readMirror;
        readIndex := writeIndex;
      }
    }

    /** The bound is exact: the contents are the last `size` bytes just when the mirrors are
        not both flipped. */
    lemma ForceIsExact(data: seq<byte>)
      requires Valid()
      ensures (if FlipsBoth(data) then [] else LastOf(Contents() + data, size)) == LastOf(Contents() + data, size)
              <==> !FlipsBoth(data)
    {
    }

    /** ringbuffer_get */
    method Get(length: nat) returns (out: seq<byte>)
      requires Valid() && length <= 0xFFFF
      modifies this
      ensures Valid() && |out| == Min(length, |old(Contents())|)
      ensures old(Contents()) == out + Contents()
    {
      hide Queue;
      var n := DataLen();
      ghost var before := Contents();
      if n == 0 {
        return [];
      }
      if n >= length {
        n := length;
      }
      assert before == before[..n] + before[n..];
      if size - readIndex > n {
        RemoveBefore(pool[..], size, readMirror == writeMirror, readIndex, writeIndex, n);
        out := pool[readIndex..readIndex + n];
        readIndex := readIndex + n;
        return;
      }
      RemoveAround(pool[..], size, readMirror == writeMirror, readIndex, writeIndex, n);
      out := pool[readIndex..size] + pool[..n - (size - readIndex)];
      readMirror := !readMirror;
      readIndex := n - (size - readIndex);
    }

    /** ringbuffer_putchar */
    method PutChar(ch: byte) returns (n: nat)
      requires Valid()
      modifies this, pool
      ensures Valid() && n == (if |old(Contents())| < size then 1 else 0)
      ensures Contents() == if n == 1 then old(Contents()) + [ch] else old(Contents())
    {
      if SpaceLen() == 0 {
        return 0;
      }
      ghost var before, same := pool[..], readMirror == writeMirror;
      Advance(before, size, same, readIndex, writeIndex, ch);
      pool[writeIndex] := ch;
      assert pool[..] == before[writeIndex := ch];
      hide Queue;
      if writeIndex == size - 1 {
        writeMirror := !writeMirror;
        writeIndex := 0;
      } else {
        writeIndex := writeIndex + 1;
      }
      n := 1;
    }

    /** ringbuffer_putchar_force: when full, only the oldest byte is dropped. A ring of size zero
        (`ringbuffer_init` with less than eight bytes) is left with its write index outside. */
    method PutCharForce(ch: byte) returns (n: nat)
      requires Valid() && pool.Length > 0
      modifies this, pool
      ensures n == 1 && (Valid() <==> size > 0)
      ensures size > 0 ==>
                Contents() == (if |old(Contents())| < size then old(Contents()) else old(Contents())[1..]) + [ch]
    {
      var oldState := Status();
      ghost var before, same := pool[..], readMirror == writeMirror;
      if size == 0 {
      } else if oldState == FULL {
        DropOldest(before, size, readIndex, ch);
      } else {
        Advance(before, size, same, readIndex, writeIndex, ch);
      }
      pool[writeIndex] := ch;
      assert pool[..] == before[writeIndex := ch];
      assert size > 0 ==> (oldState == FULL <==> |Queue(before, size, same, readIndex, writeIndex)| == size);
      hide Queue;
      if writeIndex == size - 1 {
        writeMirror := !writeMirror;
        writeIndex := 0;
        if oldState == FULL {
          readMirror := !readMirror;
          readIndex := writeIndex;
        }
      } else {
        writeIndex := writeIndex + 1;
        if oldState == FULL {
          readIndex := writeIndex;
        }
      }
      n := 1;
    }

    /** ringbuffer_getchar */
    method GetChar() returns (n: nat, ch: byte)
      requires Valid()
      modifies this
      ensures Valid() && n == (if old(Contents()) == [] then 0 else 1)
      ensures if n == 0 then Contents() == [] else old(Contents()) == [ch] + Contents()
    {
      if DataLen() == 0 {
        return 0, 0;
      }
      TakeOne(pool[..], size, readMirror == writeMirror, readIndex, writeIndex);
      hide Queue;
      ch := pool[readIndex];
      if readIndex == size - 1 {
        readMirror := !readMirror;
        readIndex := 0;
      } else {
        readIndex := readIndex + 1;
      }
      n := 1;
    }
  }

  lemma LastOfBoth(s: seq<byte>, data: seq<byte>, size: nat)
    ensures LastOf(s + LastOf(data, size), size) == LastOf(s + data, size)
    ensures |s| + |LastOf(data, size)| <= size ==> LastOf(s + data, size) == s + LastOf(data, size)
  {
    if |data| > size {
      assert LastOf(s + data, size) == data[|data| - size..];
      assert LastOf(s + LastOf(data, size), size) == LastOf(data, size);
      if |s| == 0 {
        assert s + LastOf(data, size) == LastOf(data, size);
      }
    }
  }

  /** In the same mirror the space reaches at least to the end of the pool. */
  lemma Reach(buf: seq<byte>, size: nat, same: bool, r: nat, w: nat)
    requires Placed(buf, size, same, r, w)
    ensures same ==> size - |Queue(buf, size, same, r, w)| >= size - w
  {
  }

  /** One byte written, one place on. */
  lemma Advance(buf: seq<byte>, size: nat, same: bool, r: nat, w: nat, ch: byte)
    requires Placed(buf, size, same, r, w) && |Queue(buf, size, same, r, w)| < size
    ensures var after, flip, e := buf[w := ch], w == size - 1, if w == size - 1 then 0 else w + 1;
            && Placed(after, size, same != flip, r, e)
            && Queue(after, size, same != flip, r, e) == Queue(buf, size, same, r, w) + [ch]
  {
    if w == size - 1 {
      assert CopiedAround(buf, size, w, [ch]) == buf[w := ch];
      AppendAround(buf, size, same, r, w, [ch]);
    } else {
      assert Copied(buf, w, [ch]) == buf[w := ch];
      AppendBefore(buf, size, same, r, w, [ch]);
    }
  }

  /** One byte read, one place on. */
  lemma TakeOne(buf: seq<byte>, size: nat, same: bool, r: nat, w: nat)
    requires Placed(buf, size, same, r, w) && Queue(buf, size, same, r, w) != []
    ensures var flip, e := r == size - 1, if r == size - 1 then 0 else r + 1;
            && Placed(buf, size, same != flip, e, w)
            && Queue(buf, size, same, r, w) == [buf[r]] + Queue(buf, size, same != flip, e, w)
  {
  }

  lemma DropOldest(buf: seq<byte>, size: nat, w: nat, ch: byte)
    requires Placed(buf, size, false, w, w) && size > 0
    ensures var after, e := buf[w := ch], if w == size - 1 then 0 else w + 1;
            && Placed(after, size, false, e, e)
            && Queue(after, size, false, e, e) == Queue(buf, size, false, w, w)[1..] + [ch]
  {
  }

  /** Four bytes queued in a ring of eight, five forced in: eight should stay, none does. */
  lemma ForceExample(buf: seq<byte>, data: seq<byte>)
    requires |buf| == 8 && |data| == 5
    ensures Placed(CopiedAround(buf, 8, 4, data), 8, true, 1, 1)
    ensures Queue(CopiedAround(buf, 8, 4, data), 8, true, 1, 1) == []
    ensures |LastOf(Queue(buf, 8, true, 0, 4) + data, 8)| == 8
  {
    ForceAround(buf, 8, true, 0, 4, data);
  }
}
