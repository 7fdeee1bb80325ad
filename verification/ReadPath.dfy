/** The readers and writers of a disk: the block device's request path, and the
    dump of a chain into a raw file. */
module ReadPath {
  import opened Wrappers
  import opened Arithmetic
  import opened Manifests
  import opened Layers
  import opened Tops
  import opened Seal
  import opened SealFile

  datatype Errno = EINVAL | EIO

  const MAX_IO_BYTES: nat := 1048576
  const SECTOR: nat := 512
  const PHYSICAL_BLOCK: Pos := 4096

  /** A piece of a request that one source answers. */
  datatype Span = Span(start: nat, end: nat, fromTop: bool)

  /** All of [from, to) is in the top, or none of it. */
  ghost predicate AllOrNone(t: Top, from: nat, to: nat, all: bool) {
    forall i: nat :: from <= i < to ==> (Allocated(t, i) <==> all)
  }

  /** `spans` tile [from, to) in order, by whether the top has the bytes. */
  ghost predicate Tiles(spans: seq<Span>, t: Top, from: nat, to: nat)
    decreases |spans|
  {
    if |spans| == 0 then from == to
    else
      var last := spans[|spans| - 1];
      && last.end == to
      && from <= last.start < last.end
      && AllOrNone(t, last.start, last.end, last.fromTop)
      && Tiles(spans[..|spans| - 1], t, from, last.start)
  }

  lemma TilesSnoc(spans: seq<Span>, t: Top, from: nat, mid: nat, to: nat, fromTop: bool)
    requires Tiles(spans, t, from, mid) && from <= mid < to
    requires AllOrNone(t, mid, to, fromTop)
    ensures Tiles(spans + [Span(mid, to, fromTop)], t, from, to)
  {
    assert (spans + [Span(mid, to, fromTop)])[..|spans|] == spans;
  }

  lemma {:induction false} TilesPrefix(spans: seq<Span>, t: Top, from: nat, to: nat, k: nat)
    requires Tiles(spans, t, from, to) && k < |spans|
    ensures from <= spans[k].start < spans[k].end <= to
    ensures Tiles(spans[..k], t, from, spans[k].start) && Tiles(spans[..k + 1], t, from, spans[k].end)
    ensures AllOrNone(t, spans[k].start, spans[k].end, spans[k].fromTop)
    decreases |spans|
  {
    var init := spans[..|spans| - 1];
    if k == |spans| - 1 {
      assert spans[..k] == init && spans[..k + 1] == spans;
    } else {
      TilesPrefix(init, t, from, spans[|spans| - 1].start, k);
      assert spans[..k] == init[..k] && spans[..k + 1] == init[..k + 1];
    }
  }

  /** `r` is what of `xs` lies in [off, end), in order and before `limit`. */
  ghost predicate Clipped(xs: seq<(nat, nat)>, r: seq<(nat, nat)>, off: nat, end: nat, limit: nat) {
    && (forall k :: 0 <= k < |r| ==> off <= r[k].0 < r[k].1 <= end && r[k].1 <= limit)
    && (forall j, k :: 0 <= j < k < |r| ==> r[j].1 < r[k].0)
    && (forall i: nat :: off <= i < end ==> (InSome(xs, i) <==> InSome(r, i)))
  }

  function Clip(x: (nat, nat), off: nat, end: nat): seq<(nat, nat)> {
    var s := if x.0 > off then x.0 else off;
    var e := if x.1 < end then x.1 else end;
    if s < e then [(s, e)] else []
  }

  lemma ClipNext(xs: seq<(nat, nat)>, x: (nat, nat), r: seq<(nat, nat)>, off: nat, end: nat, limit: nat)
    requires Clipped(xs, r, off, end, limit) && (|r| > 0 ==> limit < x.0) && x.0 < x.1
    ensures Clipped(xs + [x], r + Clip(x, off, end), off, end, x.1)
  {
    var more := r + Clip(x, off, end);
    forall i: nat | off <= i < end ensures InSome(xs + [x], i) <==> InSome(more, i) {
      InSomeSnoc(xs, x, i);
      if Clip(x, off, end) != [] {
        InSomeSnoc(r, Clip(x, off, end)[0], i);
      } else {
        assert more == r;
      }
    }
  }

  /** The first `n` extents, clipped. */
  ghost predicate ClippedTo(extents: seq<(nat, nat)>, n: nat, r: seq<(nat, nat)>, off: nat, end: nat) {
    n <= |extents| && if n == 0 then r == [] else Clipped(extents[..n], r, off, end, extents[n - 1].1)
  }

  lemma ClipStep(extents: seq<(nat, nat)>, t: Top, len: nat, n: nat, r: seq<(nat, nat)>, off: nat, end: nat)
    requires ExtentsOf(extents, t, len) && n < |extents| && ClippedTo(extents, n, r, off, end)
    ensures ClippedTo(extents, n + 1, r + Clip(extents[n], off, end), off, end)
  {
    assert extents[..n + 1] == extents[..n] + [extents[n]];
    var limit := if n == 0 then 0 else extents[n - 1].1;
    if n == 0 {
      assert Clipped(extents[..0], [], off, end, 0);
    }
    ClipNext(extents[..n], extents[n], r, off, end, limit);
  }

  /** The allocated ranges inside [off, end), in order. */
  ghost predicate RangesOf(r: seq<(nat, nat)>, t: Top, off: nat, end: nat) {
    && (forall k :: 0 <= k < |r| ==> off <= r[k].0 < r[k].1 <= end)
    && (forall j, k :: 0 <= j < k < |r| ==> r[j].1 < r[k].0)
    && (forall i: nat :: off <= i < end ==> (Allocated(t, i) <==> InSome(r, i)))
  }

  lemma ClipEnds(extents: seq<(nat, nat)>, t: Top, len: nat, r: seq<(nat, nat)>, off: nat, end: nat)
    requires ExtentsOf(extents, t, len) && off <= end <= len && ClippedTo(extents, |extents|, r, off, end)
    ensures RangesOf(r, t, off, end)
  {
    assert extents[..|extents|] == extents;
  }

  /** The extents inside [off, end), clipped to it. */
  method ClipExtents(extents: seq<(nat, nat)>, t: Top, len: nat, off: nat, end: nat) returns (r: seq<(nat, nat)>)
    requires ExtentsOf(extents, t, len) && off <= end <= len
    ensures RangesOf(r, t, off, end)
  {
    r := [];
    var n := 0;
    while n < |extents|
      invariant 0 <= n <= |extents| && ClippedTo(extents, n, r, off, end)
    {
      ClipStep(extents, t, len, n, r, off, end);
      r := r + Clip(extents[n], off, end);
      n := n + 1;
    }
    ClipEnds(extents, t, len, r, off, end);
  }

  /** Where the first `n` ranges end. */
  ghost function RangeEnd(r: seq<(nat, nat)>, off: nat, n: nat): nat
    requires n <= |r|
  {
    if n == 0 then off else r[n - 1].1
  }

  lemma RangeNext(r: seq<(nat, nat)>, t: Top, off: nat, end: nat, n: nat)
    requires RangesOf(r, t, off, end) && n < |r|
    ensures off <= RangeEnd(r, off, n) <= r[n].0 < r[n].1 <= end
    ensures AllOrNone(t, RangeEnd(r, off, n), r[n].0, false) && AllOrNone(t, r[n].0, r[n].1, true)
  {
    forall i: nat | RangeEnd(r, off, n) <= i < r[n].0 ensures !InSome(r, i) {
      forall k | 0 <= k < |r| ensures !(r[k].0 <= i < r[k].1) {
        if k < n - 1 { assert r[k].1 < r[n - 1].0; }
        if n < k { assert r[n].1 < r[k].0; }
      }
    }
    forall i: nat | r[n].0 <= i < r[n].1 ensures InSome(r, i) { }
  }

  lemma RangesDone(r: seq<(nat, nat)>, t: Top, off: nat, end: nat)
    requires off <= end && RangesOf(r, t, off, end)
    ensures off <= RangeEnd(r, off, |r|) <= end && AllOrNone(t, RangeEnd(r, off, |r|), end, false)
  {
    forall i: nat | RangeEnd(r, off, |r|) <= i < end ensures !InSome(r, i) {
      forall k | 0 <= k < |r| ensures !(r[k].0 <= i < r[k].1) {
        if k < |r| - 1 { assert r[k].1 < r[|r| - 1].0; }
      }
    }
  }

  /** Splits a request into what the top has and what the chain has. */
  method SplitSpans(ranges: seq<(nat, nat)>, t: Top, off: nat, end: nat) returns (spans: seq<Span>)
    requires off <= end && RangesOf(ranges, t, off, end)
    ensures Tiles(spans, t, off, end)
  {
    spans := [];
    var cursor := off;
    var n := 0;
    while n < |ranges|
      invariant 0 <= n <= |ranges| && cursor == RangeEnd(ranges, off, n)
      invariant Tiles(spans, t, off, cursor)
    {
      RangeNext(ranges, t, off, end, n);
      var (s, e) := ranges[n];
      if s > cursor {
        TilesSnoc(spans, t, off, cursor, s, false);
        spans := spans + [Span(cursor, s, false)];
      }
      TilesSnoc(spans, t, off, s, e, true);
      spans := spans + [Span(s, e, true)];
      cursor := e;
      n := n + 1;
    }
    RangesDone(ranges, t, off, end);
    if cursor < end {
      TilesSnoc(spans, t, off, cursor, end, false);
      spans := spans + [Span(cursor, end, false)];
    }
  }

  lemma ViewPiece(g: Geometry, chain: seq<Layer>, pos: nat, want: nat)
    requires ChainOk(g, chain) && pos + want <= g.size && 0 < want
    requires pos + want <= ChunkStart(g, pos) + g.chunkSize
    ensures ChunkOffset(g, ChunkStart(g, pos))
    ensures pos - ChunkStart(g, pos) + want <= |ViewChunk(g, chain, ChunkStart(g, pos))|
    ensures View(g, chain)[pos..pos + want] ==
            ViewChunk(g, chain, ChunkStart(g, pos))[pos - ChunkStart(g, pos)..pos - ChunkStart(g, pos) + want]
  {
    ChunkOfByte(g, pos);
    var off := ChunkStart(g, pos);
    ViewSlice(g, chain, off);
    var view := View(g, chain);
    assert Slice(g, view, off)[pos - off..pos - off + want] == view[pos..pos + want];
  }

  lemma ZerosSlice(n: nat, from: nat, len: nat)
    requires from + len <= n
    ensures Zeros(n)[from..from + len] == Zeros(len)
  {
  }

  /** A piece of one chunk. */
  method ReadPiece(g: Geometry, chain: seq<Layer>, chunks: set<Digest>, pos: nat, want: nat)
    returns (r: Result<seq<Byte>, Errno>)
    requires ChainOk(g, chain) && 0 < want && pos + want <= g.size && pos + want <= ChunkStart(g, pos) + g.chunkSize
    ensures r.Ok? ==> r.value == View(g, chain)[pos..pos + want]
    ensures r.Err? ==> r.error == EIO && !Available(chunks, chain)
  {
    var chunkOff := pos - pos % g.chunkSize;
    ViewPiece(g, chain, pos, want);
    var e := Resolve(chain, chunkOff);
    ResolvedOk(g, chain, chunkOff);
    if e.None? || e.value.kind.Zero? {
      ZerosSlice(ChunkLen(g, chunkOff), pos - chunkOff, want);
      return Ok(Zeros(want));
    }
    if e.value.hash !in chunks { return Err(EIO); }
    return Ok(e.value.hash.preimage[pos - chunkOff..pos - chunkOff + want]);
  }

  lemma SliceJoin(s: seq<Byte>, a: nat, b: nat, c: nat)
    requires a <= b <= c <= |s|
    ensures s[a..b] + s[b..c] == s[a..c]
  {
  }

  /** A span of the chain, chunk by chunk, from the chunks that can be had. */
  method ReadChain(g: Geometry, chain: seq<Layer>, chunks: set<Digest>, off: nat, n: nat)
    returns (r: Result<seq<Byte>, Errno>)
    requires ChainOk(g, chain) && off + n <= g.size
    ensures r.Ok? ==> r.value == View(g, chain)[off..off + n]
    ensures r.Err? ==> r.error == EIO && (|chain| == 0 || !Available(chunks, chain))
  {
    if |chain| == 0 { return Err(EIO); }
    ghost var view := View(g, chain);
    var buf: seq<Byte> := [];
    var end := off + n;
    var pos := off;
    while pos < end
      invariant off <= pos <= end
      invariant buf == view[off..pos]
    {
      var chunkOff := pos - pos % g.chunkSize;
      var want := (if chunkOff + g.chunkSize < end then chunkOff + g.chunkSize else end) - pos;
      var piece := ReadPiece(g, chain, chunks, pos, want);
      if piece.Err? { return piece; }
      SliceJoin(view, off, pos, pos + want);
      buf := buf + piece.value;
      pos := pos + want;
    }
    return Ok(buf);
  }

  lemma TilesEnd(spans: seq<Span>, t: Top, from: nat, a: nat, b: nat)
    requires Tiles(spans, t, from, a) && Tiles(spans, t, from, b)
    ensures a == b
  {
  }

  /** The next span begins where those before it end. */
  lemma NextTile(spans: seq<Span>, t: Top, off: nat, end: nat, k: nat, pos: nat)
    requires Tiles(spans, t, off, end) && k < |spans| && Tiles(spans[..k], t, off, pos)
    ensures spans[k].start == pos && off <= pos < spans[k].end <= end && Tiles(spans[..k + 1], t, off, spans[k].end)
    ensures AllOrNone(t, spans[k].start, spans[k].end, spans[k].fromTop)
  {
    TilesPrefix(spans, t, off, end, k);
    TilesEnd(spans[..k], t, off, pos, spans[k].start);
  }

  method ReadSpan(g: Geometry, chain: seq<Layer>, chunks: set<Digest>, t: Top, s: Span)
    returns (r: Result<seq<Byte>, Errno>)
    requires ChainOk(g, chain) && TopOk(t) && s.start < s.end <= g.size
    requires forall i: nat :: s.start <= i < s.end ==> (Allocated(t, i) <==> s.fromTop)
    ensures r.Ok? ==> r.value == Overlay(t, View(g, chain))[s.start..s.end]
    ensures r.Err? ==> r.error == EIO && (|chain| == 0 || !Available(chunks, chain))
  {
    if s.fromTop {
      assert Allocated(t, s.end - 1);
      r := Ok(t.data[s.start..s.end]);
    } else {
      r := ReadChain(g, chain, chunks, s.start, s.end - s.start);
    }
  }

  /** The spans of a request, each from its source. */
  method ReadSpans(g: Geometry, chain: seq<Layer>, chunks: set<Digest>, t: Top, spans: seq<Span>, off: nat, end: nat)
    returns (r: Result<seq<Byte>, Errno>)
    requires ChainOk(g, chain) && TopOk(t) && Tiles(spans, t, off, end) && off <= end <= g.size
    ensures r.Ok? ==> r.value == Overlay(t, View(g, chain))[off..end]
    ensures r.Err? ==> r.error == EIO && (|chain| == 0 || !Available(chunks, chain))
  {
    ghost var shows := Overlay(t, View(g, chain));
    var buf: seq<Byte> := [];
    ghost var pos := off;
    var k := 0;
    while k < |spans|
      invariant 0 <= k <= |spans| && off <= pos <= end
      invariant Tiles(spans[..k], t, off, pos)
      invariant buf == shows[off..pos]
    {
      NextTile(spans, t, off, end, k, pos);
      var piece := ReadSpan(g, chain, chunks, t, spans[k]);
      if piece.Err? { return piece; }
      SliceJoin(shows, off, pos, spans[k].end);
      buf := buf + piece.value;
      pos := spans[k].end;
      k := k + 1;
    }
    assert spans[..k] == spans;
    TilesEnd(spans, t, off, pos, end);
    return Ok(buf);
  }

  lemma WrittenNothing(t: Top, block: Pos, off: nat)
    requires TopOk(t) && off <= |t.data|
    ensures Written(t, block, off, Zeros(0)) == t
  {
    assert Splice(t.data, off, Zeros(0)) == t.data;
    assert Written(t, block, off, Zeros(0)).alloc == t.alloc;
  }

  lemma ZerosNext(t: Top, block: Pos, off: nat, done: nat, n: nat)
    requires TopOk(t) && off + done + n <= |t.data|
    ensures |Written(t, block, off, Zeros(done)).data| == |t.data|
    ensures Written(Written(t, block, off, Zeros(done)), block, off + done, Zeros(n)) ==
            Written(t, block, off, Zeros(done + n))
  {
    WriteSplit(t, block, off, Zeros(done), Zeros(n));
    assert Zeros(done) + Zeros(n) == Zeros(done + n);
  }

  /** Zeros written at `off`, at most `MAX_IO_BYTES` at a time, up to a write that
      fails. */
  method WriteZeros(t: Top, block: Pos, off: nat, len: nat, mayFail: bool) returns (r: Top, done: nat)
    requires TopOk(t) && off + len <= |t.data|
    ensures done <= len && r == Written(t, block, off, Zeros(done)) && (!mayFail ==> done == len)
  {
    r := t;
    done := 0;
    WrittenNothing(t, block, off);
    while done < len
      invariant 0 <= done <= len
      invariant r == Written(t, block, off, Zeros(done))
    {
      var failed: bool := *;
      if mayFail && failed { return; }
      var n := if len - done < MAX_IO_BYTES then len - done else MAX_IO_BYTES;
      ZerosNext(t, block, off, done, n);
      r := Written(r, block, off + done, Zeros(n));
      done := done + n;
    }
  }

  /** Zeros in the top show, whatever is below; whole blocks of them change
      nothing else. */
  lemma DiscardShows(t: Top, block: Pos, off: nat, len: nat, base: seq<Byte>)
    requires TopOk(t) && |t.data| == |base| && off + len <= |base| && len > 0
    ensures var r := Written(t, block, off, Zeros(len));
            && TopOk(r) && |r.data| == |base|
            && (forall i: nat :: off <= i < off + len ==> Overlay(r, base)[i] == 0)
            && (BlockAligned(block, off, len, |base|) ==> Overlay(r, base) == Splice(Overlay(t, base), off, Zeros(len)))
  {
    WrittenOk(t, block, off, Zeros(len));
    WriteChangesItsRange(t, block, off, Zeros(len), base);
    if BlockAligned(block, off, len, |base|) {
      AlignedEdges(t, block, off, len, base);
    }
    forall i: nat | off <= i < off + len ensures Overlay(Written(t, block, off, Zeros(len)), base)[i] == 0 {
      InBlocksRange(block, off, len, i);
    }
  }

  /** A disk being served: its chain, the chunks the node can get, its top. */
  class Device {
    const g: Geometry
    const block: Pos
    const chain: seq<Layer>
    const chunks: set<Digest>
    var top: Option<Top>

    constructor (g: Geometry, block: Pos, chain: seq<Layer>, chunks: set<Digest>, top: Option<Top>)
      ensures this.g == g && this.block == block && this.chain == chain && this.chunks == chunks && this.top == top
    {
      this.g, this.block, this.chain, this.chunks, this.top := g, block, chain, chunks, top;
    }

    ghost predicate Valid()
      reads this
    {
      ChainOk(g, chain) && (top.Some? ==> TopOk(top.value) && |top.value.data| == g.size)
    }

    /** What the guest sees. */
    ghost function Shows(): (r: seq<Byte>)
      requires Valid()
      reads this
      ensures |r| == g.size
    {
      if top.Some? then Overlay(top.value, View(g, chain)) else View(g, chain)
    }

    /** Reads [off, off+n), cut at the disk's end. With `mayFail` the node's files
        may refuse to be read. */
    method ReadIo(off: nat, n: nat, mayFail: bool) returns (r: Result<seq<Byte>, Errno>)
      requires Valid()
      ensures r == Err(EINVAL) <==> off >= g.size
      ensures r.Ok? ==> r.value == Shows()[off..if off + n < g.size then off + n else g.size]
      ensures r == Err(EIO) ==> mayFail || |chain| == 0 || !Available(chunks, chain)
    {
      if off >= g.size { return Err(EINVAL); }
      if mayFail {
        var failed: bool := *;
        if failed { return Err(EIO); }
      }
      var end := if off + n < g.size then off + n else g.size;
      var t := if top.Some? then top.value else Fresh(g.size);
      var ranges: seq<(nat, nat)> := [];
      if top.Some? {
        var extents := DataExtents(t, g.size);
        ranges := ClipExtents(extents, t, g.size, off, end);
      }
      assert Shows() == Overlay(t, View(g, chain));
      var spans := SplitSpans(ranges, t, off, end);
      r := ReadSpans(g, chain, chunks, t, spans, off, end);
    }

    /** A write goes to the top alone, or what of it the file took. It changes
        exactly its range if and only if the holes around it in the blocks it
        touches show zeros. With `mayFail` the file may refuse it, or take less. */
    method WriteIo(off: nat, bytes: seq<Byte>, mayFail: bool) returns (r: Result<nat, Errno>)
      requires Valid()
      modifies this`top
      ensures Valid()
      ensures r == Err(EINVAL) <==> off + |bytes| > g.size
      ensures r.Err? ==> top == old(top)
      ensures !mayFail && off + |bytes| <= g.size ==> r == if old(top).Some? then Ok(|bytes|) else Err(EIO)
      ensures r.Ok? ==> r.value <= |bytes| && old(top).Some?
                        && top == Some(Written(old(top).value, block, off, bytes[..r.value]))
      ensures r.Ok? ==> (Shows() == Splice(old(Shows()), off, bytes[..r.value])
                         <==> EdgesZero(old(top).value, block, off, r.value, View(g, chain)))
    {
      if off + |bytes| > g.size { return Err(EINVAL); }
      if top.None? { return Err(EIO); }
      var failed: bool := *;
      if mayFail && failed { return Err(EIO); }
      var n: nat :| n <= |bytes| && (mayFail || n == |bytes|);
      WriteChangesItsRange(top.value, block, off, bytes[..n], View(g, chain));
      top := Some(Written(top.value, block, off, bytes[..n]));
      return Ok(n);
    }

    /** A discard writes zeros into the top, a piece at a time, and never
        punches a hole: what the chain has there does not come back. */
    method ZeroWriteIo(off: nat, len: nat, mayFail: bool) returns (r: Result<nat, Errno>)
      requires Valid()
      modifies this`top
      ensures Valid()
      ensures r == Err(EINVAL) <==> off + len > g.size
      ensures r == Err(EINVAL) || (r.Err? && old(top).None?) ==> top == old(top)
      ensures !mayFail && off + len <= g.size ==> r == if old(top).Some? || len == 0 then Ok(len) else Err(EIO)
      ensures r.Err? && old(top).Some? && off + len <= g.size ==>
                exists n: nat :: n < len && top == Some(Written(old(top).value, block, off, Zeros(n)))
      ensures r.Ok? && len > 0 ==> old(top).Some? && top == Some(Written(old(top).value, block, off, Zeros(len)))
      ensures r.Ok? ==> forall i: nat :: off <= i < off + len ==> Shows()[i] == 0
      ensures r.Ok? && BlockAligned(block, off, len, g.size) ==> Shows() == Splice(old(Shows()), off, Zeros(len))
    {
      if off + len > g.size { return Err(EINVAL); }
      if len == 0 {
        assert Splice(Shows(), off, Zeros(0)) == Shows();
        return Ok(0);
      }
      if top.None? { return Err(EIO); }
      DiscardShows(top.value, block, off, len, View(g, chain));
      var after, n := WriteZeros(top.value, block, off, len, mayFail);
      WrittenOk(top.value, block, off, Zeros(n));
      top := Some(after);
      return if n < len then Err(EIO) else Ok(len);
    }
  }

  /** A sector written into an unallocated block that is larger hides what the
      chain has in the rest of that block: it reads as zeros from then on. */
  lemma SectorWriteHidesBlock(g: Geometry, chain: seq<Layer>, t: Top, block: Pos, off: nat, bytes: seq<Byte>, i: nat)
    requires ChainOk(g, chain) && TopOk(t) && |t.data| == g.size
    requires block > SECTOR && block % SECTOR == 0 && off % SECTOR == 0 && |bytes| == SECTOR && off + SECTOR <= g.size
    requires i < g.size && i / block == off / block && !(off <= i < off + SECTOR)
    requires !Allocated(t, i) && View(g, chain)[i] != 0
    ensures TopOk(Written(t, block, off, bytes))
    ensures Overlay(t, View(g, chain))[i] != 0 && Overlay(Written(t, block, off, bytes), View(g, chain))[i] == 0
    ensures Overlay(Written(t, block, off, bytes), View(g, chain)) != Splice(Overlay(t, View(g, chain)), off, bytes)
  {
    WrittenOk(t, block, off, bytes);
    DivMono(off, off + |bytes| - 1, block);
    assert InBlocks(block, off, |bytes|, i);
  }

  lemma DiskOfOnes(size: Pos) returns (g: Geometry, chain: seq<Layer>)
    ensures g.size == size && ChainOk(g, chain) && forall i :: 0 <= i < size ==> View(g, chain)[i] == 1
  {
    g := Geometry(size, size, b => 0);
    var content: seq<Byte> := seq(size, k => 1);
    chain := [FlatLayer(g, content)];
    FlatShows(g, content);
  }

  /** Under every block size above a sector there is a disk where any sector
      written into its first block does so. */
  lemma SectorInBlock(block: Pos, off: nat, bytes: seq<Byte>)
    returns (g: Geometry, chain: seq<Layer>, t: Top, i: nat)
    requires block > SECTOR && block % SECTOR == 0 && off % SECTOR == 0 && off < block && |bytes| == SECTOR
    ensures ChainOk(g, chain) && TopOk(t) && |t.data| == g.size == block && i < g.size
    ensures TopOk(Written(t, block, off, bytes)) && off + SECTOR <= g.size && !(off <= i < off + SECTOR)
    ensures Overlay(t, View(g, chain))[i] == 1 && Overlay(Written(t, block, off, bytes), View(g, chain))[i] == 0
  {
    g, chain := DiskOfOnes(block);
    t, i := Fresh(block), if off == 0 then SECTOR else 0;
    ModOf(0, i, block);
    ModOf(0, off, block);
    SectorWriteHidesBlock(g, chain, t, block, off, bytes, i);
  }

  /** As under the 4096-byte blocks the device reports over its 512-byte sectors. */
  lemma SectorInPhysicalBlock(off: nat, bytes: seq<Byte>) returns (g: Geometry, chain: seq<Layer>, t: Top, i: nat)
    requires off % SECTOR == 0 && off < PHYSICAL_BLOCK && |bytes| == SECTOR
    ensures ChainOk(g, chain) && TopOk(t) && |t.data| == g.size == PHYSICAL_BLOCK && i < g.size
    ensures TopOk(Written(t, PHYSICAL_BLOCK, off, bytes)) && off + SECTOR <= g.size && !(off <= i < off + SECTOR)
    ensures Overlay(t, View(g, chain))[i] == 1
    ensures Overlay(Written(t, PHYSICAL_BLOCK, off, bytes), View(g, chain))[i] == 0
  {
    g, chain, t, i := SectorInBlock(PHYSICAL_BLOCK, off, bytes);
  }

  // ---- materialize ---------------------------------------------------------------

  datatype DumpError = CorruptChain | MissingChunk

  /** A write at `off` of a plain file, which grows with zeros. */
  function WrittenAt(f: seq<Byte>, off: nat, bytes: seq<Byte>): (r: seq<Byte>) {
    if |bytes| == 0 then f
    else
      var padded := if |f| < off + |bytes| then f + Zeros(off + |bytes| - |f|) else f;
      Splice(padded, off, bytes)
  }

  /** `f`, read past its end as zeros, agrees with `view` below `to`. */
  ghost predicate Agrees(f: seq<Byte>, view: seq<Byte>, to: nat)
    requires to <= |view|
  {
    && |f| <= to
    && forall i :: 0 <= i < to ==> view[i] == if i < |f| then f[i] else 0
  }

  lemma AgreesWritten(f: seq<Byte>, view: seq<Byte>, off: nat, bytes: seq<Byte>)
    requires off + |bytes| <= |view| && Agrees(f, view, off) && view[off..off + |bytes|] == bytes
    ensures Agrees(WrittenAt(f, off, bytes), view, off + |bytes|)
  {
    var r := WrittenAt(f, off, bytes);
    forall i | 0 <= i < off + |bytes| ensures view[i] == if i < |r| then r[i] else 0 {
      if i >= off { assert view[off..off + |bytes|][i - off] == view[i]; }
    }
  }

  lemma AgreesSkipped(f: seq<Byte>, view: seq<Byte>, off: nat, n: nat)
    requires off + n <= |view| && Agrees(f, view, off) && view[off..off + n] == Zeros(n)
    ensures Agrees(f, view, off + n)
  {
    forall i | off <= i < off + n ensures view[i] == 0 { assert view[off..off + n][i - off] == view[i]; }
  }

  /** The dump of one more chunk. */
  lemma AgreesNext(g: Geometry, chain: seq<Layer>, f: seq<Byte>, off: nat, data: bool)
    requires ChainOk(g, chain) && ChunkOffset(g, off)
    requires Agrees(f, View(g, chain), off)
    requires data || ViewChunk(g, chain, off) == Zeros(ChunkLen(g, off))
    ensures Agrees(if data then WrittenAt(f, off, ViewChunk(g, chain, off)) else f, View(g, chain),
                   off + ChunkLen(g, off))
  {
    ViewSlice(g, chain, off);
    if data {
      AgreesWritten(f, View(g, chain), off, ViewChunk(g, chain, off));
    } else {
      AgreesSkipped(f, View(g, chain), off, ChunkLen(g, off));
    }
  }

  /** One chunk of a chain; a zero chunk is skipped. */
  method DumpChunk(chain: seq<Layer>, chunks: set<Digest>, g: Geometry, off: nat, f: seq<Byte>)
    returns (r: Result<seq<Byte>, DumpError>)
    requires ChainOk(g, chain) && ChunkOffset(g, off) && Agrees(f, View(g, chain), off)
    ensures r.Ok? ==> Agrees(r.value, View(g, chain), off + ChunkLen(g, off))
    ensures r.Err? ==> r.error == MissingChunk && !Available(chunks, chain)
  {
    var e := Resolve(chain, off);
    ResolvedOk(g, chain, off);
    var data := e.Some? && !e.value.kind.Zero?;
    AgreesNext(g, chain, f, off, data);
    if !data { return Ok(f); }
    if e.value.hash !in chunks { return Err(MissingChunk); }
    return Ok(WrittenAt(f, off, e.value.hash.preimage));
  }

  /** How much of the disk the first `ci` chunks hold. */
  function Covered(g: Geometry, ci: nat): nat {
    if ci * g.chunkSize < g.size then ci * g.chunkSize else g.size
  }

  lemma CoveredNext(g: Geometry, ci: nat)
    requires ci < ChunkCount(g)
    ensures ChunkOffset(g, ci * g.chunkSize) && Covered(g, ci) == ci * g.chunkSize
    ensures Covered(g, ci + 1) == ci * g.chunkSize + ChunkLen(g, ci * g.chunkSize)
  {
    ChunkIndex(g, ci);
    MulStep(ci, g.chunkSize);
  }

  lemma CoveredAll(g: Geometry)
    ensures Covered(g, ChunkCount(g)) == g.size
  {
    ChunkIndex(g, ChunkCount(g));
  }

  /** The chunks of a chain one after the other. */
  method Dump(chain: seq<Layer>, chunks: set<Digest>, g: Geometry) returns (r: Result<seq<Byte>, DumpError>)
    requires ChainOk(g, chain)
    ensures r.Ok? ==> Agrees(r.value, View(g, chain), g.size)
    ensures r.Err? ==> r.error == MissingChunk && !Available(chunks, chain)
  {
    var f: seq<Byte> := [];
    var ci := 0;
    while ci < ChunkCount(g)
      invariant 0 <= ci <= ChunkCount(g)
      invariant Agrees(f, View(g, chain), Covered(g, ci))
    {
      CoveredNext(g, ci);
      var next := DumpChunk(chain, chunks, g, ci * g.chunkSize, f);
      if next.Err? { return next; }
      f := next.value;
      ci := ci + 1;
    }
    CoveredAll(g);
    return Ok(f);
  }

  lemma GrownIs(f: seq<Byte>, view: seq<Byte>)
    requires Agrees(f, view, |view|)
    ensures f + Zeros(|view| - |f|) == view
  {
  }

  /** Writes what the chain shows to a file. */
  method Materialize(chain: seq<Layer>, chunks: set<Digest>, g: Geometry) returns (r: Result<seq<Byte>, DumpError>)
    requires |chain| > 0 ==> g.chunkSize == chain[|chain| - 1].chunkSize && g.size == chain[|chain| - 1].logicalSize
    requires forall m :: m in chain && m.chunkSize == g.chunkSize && m.logicalSize == g.size ==> LayerOk(g, m)
    ensures r == Err(CorruptChain) <==>
            |chain| == 0 || exists m :: m in chain && !(m.chunkSize == g.chunkSize && m.logicalSize == g.size)
    ensures r.Ok? ==> ChainOk(g, chain) && r.value == View(g, chain)
    ensures r == Err(MissingChunk) ==> !Available(chunks, chain)
  {
    if |chain| == 0 { return Err(CorruptChain); }
    var k := 0;
    while k < |chain|
      invariant 0 <= k <= |chain|
      invariant forall j :: 0 <= j < k ==> chain[j].chunkSize == g.chunkSize && chain[j].logicalSize == g.size
    {
      if chain[k].chunkSize != g.chunkSize || chain[k].logicalSize != g.size {
        assert chain[k] in chain;
        return Err(CorruptChain);
      }
      k := k + 1;
    }
    assert ChainOk(g, chain);
    r := Dump(chain, chunks, g);
    if r.Ok? {
      GrownIs(r.value, View(g, chain));
      r := Ok(r.value + Zeros(g.size - |r.value|));
    }
  }
}
