/** A disk's mutable top: a sparse file. The file system allocates whole
    blocks, and `SEEK_DATA`/`SEEK_HOLE` tell allocated bytes from holes. */
module Tops {
  import opened Wrappers
  import opened Arithmetic
  import opened Layers

  datatype Top = Top(data: seq<Byte>, alloc: seq<bool>)

  /** One allocation bit for each byte; holes read as zeros. */
  ghost predicate TopOk(t: Top) {
    && |t.alloc| == |t.data|
    && forall i :: 0 <= i < |t.data| && !t.alloc[i] ==> t.data[i] == 0
  }

  predicate Allocated(t: Top, i: nat) {
    i < |t.alloc| && t.alloc[i]
  }

  /** A new file of `n` bytes: one hole. */
  function Fresh(n: nat): (t: Top)
    ensures TopOk(t) && |t.data| == n && forall i: nat :: !Allocated(t, i)
  {
    Top(Zeros(n), seq(n, i => false))
  }

  /** The top's allocated bytes over `base`. */
  ghost function Overlay(t: Top, base: seq<Byte>): (r: seq<Byte>)
    requires TopOk(t)
    ensures |r| == |base|
    ensures forall i :: 0 <= i < |base| ==> r[i] == if Allocated(t, i) then t.data[i] else base[i]
  {
    seq(|base|, i requires 0 <= i < |base| => if Allocated(t, i) then t.data[i] else base[i])
  }

  // ---- writes ------------------------------------------------------------------

  /** Whether byte `i` lies in a block that the range [off, off+n) touches. */
  predicate InBlocks(block: Pos, off: nat, n: nat, i: nat) {
    n > 0 && off / block <= i / block <= (off + n - 1) / block
  }

  function Splice(s: seq<Byte>, off: nat, bytes: seq<Byte>): (r: seq<Byte>)
    requires off + |bytes| <= |s|
    ensures |r| == |s|
    ensures forall i :: 0 <= i < |s| ==> r[i] == if off <= i < off + |bytes| then bytes[i - off] else s[i]
  {
    s[..off] + bytes + s[off + |bytes|..]
  }

  /** A write into the file: the blocks it touches are allocated whole. */
  function Written(t: Top, block: Pos, off: nat, bytes: seq<Byte>): (r: Top)
    requires |t.alloc| == |t.data| && off + |bytes| <= |t.data|
    ensures |r.data| == |t.data| && |r.alloc| == |t.alloc|
  {
    Top(Splice(t.data, off, bytes),
        seq(|t.alloc|, i requires 0 <= i < |t.alloc| => t.alloc[i] || InBlocks(block, off, |bytes|, i)))
  }

  lemma InBlocksRange(block: Pos, off: nat, n: nat, i: nat)
    requires off <= i < off + n
    ensures InBlocks(block, off, n, i)
  {
    DivMono(off, i, block);
    DivMono(i, off + n - 1, block);
  }

  lemma WrittenOk(t: Top, block: Pos, off: nat, bytes: seq<Byte>)
    requires TopOk(t) && off + |bytes| <= |t.data|
    ensures TopOk(Written(t, block, off, bytes))
  {
    var r := Written(t, block, off, bytes);
    forall i | 0 <= i < |r.data| && !r.alloc[i] ensures r.data[i] == 0 {
      if off <= i < off + |bytes| { InBlocksRange(block, off, |bytes|, i); }
    }
  }

  /** The bytes of the touched blocks around the range that are holes show
      zeros below. */
  ghost predicate EdgesZero(t: Top, block: Pos, off: nat, n: nat, base: seq<Byte>) {
    forall i :: 0 <= i < |base| && InBlocks(block, off, n, i) && !(off <= i < off + n) && !Allocated(t, i)
      ==> base[i] == 0
  }

  /** A write changes exactly its range of the disk if and only if the holes
      around it in the blocks it touches show zeros: otherwise the new blocks'
      own zeros hide what the chain has there. */
  lemma WriteChangesItsRange(t: Top, block: Pos, off: nat, bytes: seq<Byte>, base: seq<Byte>)
    requires TopOk(t) && off + |bytes| <= |t.data| == |base|
    ensures TopOk(Written(t, block, off, bytes))
    ensures Overlay(Written(t, block, off, bytes), base) == Splice(Overlay(t, base), off, bytes)
            <==> EdgesZero(t, block, off, |bytes|, base)
  {
    WrittenOk(t, block, off, bytes);
    var r := Written(t, block, off, bytes);
    var a, b := Overlay(r, base), Splice(Overlay(t, base), off, bytes);
    forall i | 0 <= i < |base|
      ensures a[i] == b[i] <==>
              (InBlocks(block, off, |bytes|, i) && !(off <= i < off + |bytes|) && !Allocated(t, i) ==> base[i] == 0)
    {
      if off <= i < off + |bytes| { InBlocksRange(block, off, |bytes|, i); }
    }
    if EdgesZero(t, block, off, |bytes|, base) {
      assert forall i :: 0 <= i < |base| ==> a[i] == b[i];
    } else {
      var i :| 0 <= i < |base| && InBlocks(block, off, |bytes|, i) && !(off <= i < off + |bytes|)
            && !Allocated(t, i) && base[i] != 0;
      assert a[i] != b[i];
    }
  }

  /** A write of whole blocks, or of blocks up to the file's end. */
  predicate BlockAligned(block: Pos, off: nat, n: nat, size: nat) {
    off % block == 0 && ((off + n) % block == 0 || off + n == size)
  }

  lemma WithinBlocks(off: nat, end: nat, i: nat, block: Pos, first: nat, q: nat, last: nat, k: nat)
    requires first * block == off && q * block <= i < q * block + block && first <= q <= last
    requires last * block < end == k * block
    ensures off <= i < end
  {
    MulLe(first, q, block);
    MulLt(last, k, block);
    MulLt(q, k, block);
  }

  /** The blocks an aligned range touches end where it does. */
  lemma InAligned(block: Pos, off: nat, n: nat, size: nat, i: nat)
    requires BlockAligned(block, off, n, size) && i < size && InBlocks(block, off, n, i)
    ensures off <= i < off + n
  {
    DivBounds(i, block);
    DivExact(off, block);
    if (off + n) % block == 0 {
      DivExact(off + n, block);
      DivBounds(off + n - 1, block);
      WithinBlocks(off, off + n, i, block, off / block, i / block, (off + n - 1) / block, (off + n) / block);
    } else {
      MulLe(off / block, i / block, block);
    }
  }

  lemma AlignedEdges(t: Top, block: Pos, off: nat, n: nat, base: seq<Byte>)
    requires BlockAligned(block, off, n, |base|) && off + n <= |base|
    ensures EdgesZero(t, block, off, n, base)
  {
    forall i: nat | i < |base| && InBlocks(block, off, n, i) ensures off <= i < off + n {
      InAligned(block, off, n, |base|, i);
    }
  }

  lemma RangesSplit(a: nat, b: nat, c: nat, d: nat, i: nat)
    requires a <= b <= c <= d && c <= b + 1
    ensures a <= i <= d <==> a <= i <= b || c <= i <= d
  {
  }

  lemma BetweenSplit(block: Pos, first: nat, mid: nat, last: nat, i: nat)
    requires first <= mid < last
    ensures first / block <= i / block <= last / block <==>
            first / block <= i / block <= mid / block || (mid + 1) / block <= i / block <= last / block
  {
    DivMono(first, mid, block);
    NextDiv(mid, block);
    DivMono(mid + 1, last, block);
    RangesSplit(first / block, mid / block, (mid + 1) / block, last / block, i / block);
  }

  lemma InBlocksIs(block: Pos, off: nat, n: nat, last: nat, i: nat)
    requires n > 0 && last == off + n - 1
    ensures InBlocks(block, off, n, i) <==> off / block <= i / block <= last / block
  {
  }

  lemma BlocksSplit(block: Pos, off: nat, m: nat, n: nat, i: nat)
    ensures InBlocks(block, off, m + n, i) <==> InBlocks(block, off, m, i) || InBlocks(block, off + m, n, i)
  {
    if m > 0 && n > 0 {
      var (mid, last) := (off + m - 1, off + m + n - 1);
      InBlocksIs(block, off, m + n, last, i);
      InBlocksIs(block, off, m, mid, i);
      InBlocksIs(block, mid + 1, n, last, i);
      BetweenSplit(block, off, mid, last, i);
    }
  }

  /** Two writes of adjacent ranges are one. */
  lemma WriteSplit(t: Top, block: Pos, off: nat, a: seq<Byte>, b: seq<Byte>)
    requires |t.alloc| == |t.data| && off + |a| + |b| <= |t.data|
    ensures Written(Written(t, block, off, a), block, off + |a|, b) == Written(t, block, off, a + b)
  {
    var l := Written(Written(t, block, off, a), block, off + |a|, b);
    var r := Written(t, block, off, a + b);
    assert l.data == r.data;
    forall i | 0 <= i < |t.alloc| ensures l.alloc[i] == r.alloc[i] {
      BlocksSplit(block, off, |a|, |b|, i);
    }
    assert l.alloc == r.alloc;
  }

  // ---- extents -------------------------------------------------------------------

  /** lseek(SEEK_DATA): the first allocated byte at or after `pos`. */
  function SeekData(t: Top, pos: nat): (r: Option<nat>)
    ensures r.Some? ==> pos <= r.value && Allocated(t, r.value) && forall i :: pos <= i < r.value ==> !Allocated(t, i)
    ensures r.None? ==> forall i :: pos <= i ==> !Allocated(t, i)
    decreases |t.alloc| - pos
  {
    if pos >= |t.alloc| then None
    else if t.alloc[pos] then Some(pos)
    else SeekData(t, pos + 1)
  }

  /** lseek(SEEK_HOLE): the first byte at or after `pos` that is in a hole;
      the file's end is one. */
  function SeekHole(t: Top, pos: nat): (r: nat)
    ensures pos <= r && !Allocated(t, r) && forall i :: pos <= i < r ==> Allocated(t, i)
    decreases |t.alloc| - pos
  {
    if pos >= |t.alloc| || !t.alloc[pos] then pos else SeekHole(t, pos + 1)
  }

  ghost predicate InSome(xs: seq<(nat, nat)>, i: nat) {
    exists k :: 0 <= k < |xs| && xs[k].0 <= i < xs[k].1
  }

  /** `xs` are the maximal runs of allocated bytes below `len`, in order. */
  ghost predicate ExtentsOf(xs: seq<(nat, nat)>, t: Top, len: nat) {
    && (forall k :: 0 <= k < |xs| ==> xs[k].0 < xs[k].1 <= len)
    && (forall j, k :: 0 <= j < k < |xs| ==> xs[j].1 < xs[k].0)
    && (forall i: nat :: i < len ==> (Allocated(t, i) <==> InSome(xs, i)))
  }

  lemma InSomeSnoc(xs: seq<(nat, nat)>, x: (nat, nat), i: nat)
    ensures InSome(xs + [x], i) <==> InSome(xs, i) || x.0 <= i < x.1
  {
    var ys := xs + [x];
    if InSome(xs, i) {
      var k :| 0 <= k < |xs| && xs[k].0 <= i < xs[k].1;
      assert ys[k] == xs[k];
    }
    if x.0 <= i < x.1 { assert ys[|xs|] == x; }
  }

  /** The allocated extents of the file below `len`. */
  method DataExtents(t: Top, len: nat) returns (out: seq<(nat, nat)>)
    ensures ExtentsOf(out, t, len)
  {
    out := [];
    var pos := 0;
    while pos < len
      invariant pos <= len
      invariant forall k :: 0 <= k < |out| ==> out[k].0 < out[k].1 <= pos
      invariant forall j, k :: 0 <= j < k < |out| ==> out[j].1 < out[k].0
      invariant forall i: nat :: i < pos ==> (Allocated(t, i) <==> InSome(out, i))
      invariant 0 < pos < len ==> !Allocated(t, pos)
    {
      var data := SeekData(t, pos);
      if data.None? || data.value >= len {
        forall i: nat | i < len ensures Allocated(t, i) <==> InSome(out, i) {
          assert i >= pos ==> !InSome(out, i);
        }
        return;
      }
      var hole := SeekHole(t, data.value);
      var end := if hole < len then hole else len;
      ghost var before := out;
      out := out + [(data.value, end)];
      forall i: nat | i < end ensures Allocated(t, i) <==> InSome(out, i) {
        InSomeSnoc(before, (data.value, end), i);
      }
      pos := end;
    }
  }
}
