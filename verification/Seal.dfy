/** Seal: a mutable sparse top becomes an immutable layer. The extents of the
    top are found again, each chunk they touch is composed with what lies below
    it and classified against the shared prefix of the chain, and the entries
    of the disk's one private layer that the top leaves alone are merged in. */
module Seal {
  import opened Wrappers
  import opened Arithmetic
  import opened Sorting
  import opened Manifests
  import opened Layers
  import opened Tops

  datatype Error = CorruptManifest | SealCancelled | ChunkMissing | IoFailed

  // ---- what a seal makes --------------------------------------------------------

  /** A disk's chain: the shared prefix, then at most one layer of its own. */
  ghost function Chain(shared: seq<Layer>, own: Option<Layer>): seq<Layer> {
    if own.Some? then shared + [own.value] else shared
  }

  ghost predicate Touched(g: Geometry, t: Top, off: nat) {
    exists i :: off <= i < off + ChunkLen(g, off) && Allocated(t, i)
  }

  /** The chunk the guest sees at `off`: the top over the chain. */
  ghost function Composed(g: Geometry, chain: seq<Layer>, t: Top, off: nat): (r: seq<Byte>)
    requires ChainOk(g, chain) && TopOk(t)
    ensures |r| == ChunkLen(g, off)
  {
    var below := ViewChunk(g, chain, off);
    seq(ChunkLen(g, off), k requires 0 <= k < |below| => if Allocated(t, off + k) then t.data[off + k] else below[k])
  }

  function ZeroEntry(off: nat, len: nat): Entry<Digest> {
    Entry(off, Zero, NoDigest, len, 0)
  }

  function DataEntry(g: Geometry, off: nat, buf: seq<Byte>): Entry<Digest> {
    Entry(off, Data, Blake3(buf), |buf|, g.compLen(buf))
  }

  /** The entry for a chunk with content `buf` over what the shared prefix
      resolves to: none where the prefix shows the same already. */
  function Classify(g: Geometry, off: nat, buf: seq<Byte>, parent: Option<Entry<Digest>>): Option<Entry<Digest>> {
    var parentData := parent.Some? && parent.value.kind.Data?;
    if AllZero(buf) then
      if parentData then Some(ZeroEntry(off, |buf|)) else None
    else if parentData && parent.value.hash == Blake3(buf) then None
    else Some(DataEntry(g, off, buf))
  }

  ghost function NewEntry(g: Geometry, shared: seq<Layer>, own: Option<Layer>, t: Top, off: nat): Option<Entry<Digest>>
    requires ChainOk(g, Chain(shared, own)) && TopOk(t)
  {
    if Touched(g, t, off) then
      Classify(g, off, Composed(g, Chain(shared, own), t, off), Resolved(shared, off))
    else if own.Some? then Lookup(own.value.entries, off)
    else None
  }

  /** The layer that sealing `t` over the chain makes. */
  ghost function Sealed(g: Geometry, shared: seq<Layer>, own: Option<Layer>, t: Top): Layer
    requires ChainOk(g, Chain(shared, own)) && TopOk(t)
  {
    Manifest(g.chunkSize, g.size, ParentId(shared),
             Tabulate(g, (off: nat) => NewEntry(g, shared, own, t, off), ChunkCount(g)))
  }

  // ---- its parts, as they are computed --------------------------------------------

  lemma ExtentsWithin(xs: seq<(nat, nat)>, t: Top, len: nat, off: nat)
    requires ExtentsOf(xs, t, len) && TopOk(t)
    ensures InSome(xs, off) <==> off < len && Allocated(t, off)
  {
  }

  /** A buffer with the top's bytes where the extents are, over `base`. */
  ghost predicate Overlaid(buf: seq<Byte>, t: Top, xs: seq<(nat, nat)>, off: nat, rawLen: nat, base: seq<Byte>)
    requires forall k :: 0 <= k < |xs| ==> xs[k].1 <= |t.data|
  {
    && |buf| == rawLen
    && forall k :: 0 <= k < rawLen ==>
         buf[k] == if InSome(xs, off + k) then t.data[off + k] else if k < |base| then base[k] else 0
  }

  /** One extent's bytes, clamped to the buffer at `off`. */
  function Patch(t: Top, x: (nat, nat), off: nat, buf: seq<Byte>): (r: seq<Byte>)
    requires x.1 <= |t.data|
    ensures |r| == |buf|
    ensures forall k :: 0 <= k < |buf| ==> r[k] == if x.0 <= off + k < x.1 then t.data[off + k] else buf[k]
  {
    var s := if x.0 > off then x.0 else off;
    var e := if x.1 < off + |buf| then x.1 else off + |buf|;
    if s < e then Splice(buf, s - off, t.data[s..e]) else buf
  }

  function Resized(base: seq<Byte>, n: nat): (r: seq<Byte>)
    ensures |r| == n && forall k :: 0 <= k < n ==> r[k] == if k < |base| then base[k] else 0
  {
    if |base| < n then base + Zeros(n - |base|) else base[..n]
  }

  lemma OverlayNext(buf: seq<Byte>, t: Top, xs: seq<(nat, nat)>, x: (nat, nat), off: nat, rawLen: nat, base: seq<Byte>)
    requires (forall k :: 0 <= k < |xs| ==> xs[k].1 <= |t.data|) && x.1 <= |t.data|
    requires Overlaid(buf, t, xs, off, rawLen, base)
    ensures Overlaid(Patch(t, x, off, buf), t, xs + [x], off, rawLen, base)
  {
    var next := Patch(t, x, off, buf);
    forall k | 0 <= k < rawLen
      ensures next[k] == if InSome(xs + [x], off + k) then t.data[off + k] else if k < |base| then base[k] else 0
    {
      InSomeSnoc(xs, x, off + k);
    }
  }

  /** Extents over `base`, clamped to the chunk at `off`. */
  method OverlayExtents(t: Top, extents: seq<(nat, nat)>, off: nat, rawLen: nat, base: seq<Byte>)
    returns (buf: seq<Byte>)
    requires forall k :: 0 <= k < |extents| ==> extents[k].1 <= |t.data|
    ensures Overlaid(buf, t, extents, off, rawLen, base)
  {
    buf := Resized(base, rawLen);
    var n := 0;
    while n < |extents|
      invariant 0 <= n <= |extents| && Overlaid(buf, t, extents[..n], off, rawLen, base)
    {
      assert extents[..n + 1] == extents[..n] + [extents[n]];
      OverlayNext(buf, t, extents[..n], extents[n], off, rawLen, base);
      buf := Patch(t, extents[n], off, buf);
      n := n + 1;
    }
    assert extents[..n] == extents;
  }

  /** Removes repeated neighbours. */
  method Dedup(s: seq<nat>) returns (r: seq<nat>)
    requires SortedBy(s, x => x)
    ensures forall i, j :: 0 <= i < j < |r| ==> r[i] < r[j]
    ensures forall x :: x in r <==> x in s
  {
    r := [];
    var k := 0;
    while k < |s|
      invariant 0 <= k <= |s|
      invariant forall i, j :: 0 <= i < j < |r| ==> r[i] < r[j]
      invariant forall x :: x in r <==> x in s[..k]
      invariant k == 0 ==> r == []
      invariant k > 0 ==> |r| > 0 && r[|r| - 1] == s[k - 1]
    {
      assert s[..k + 1] == s[..k] + [s[k]];
      if |r| == 0 || r[|r| - 1] != s[k] {
        var key: nat -> int := x => x;
        assert k > 0 ==> key(s[k - 1]) <= key(s[k]);
        r := r + [s[k]];
      }
      k := k + 1;
    }
    assert s[..k] == s;
  }

  method Numbers(from: nat, upto: nat) returns (r: seq<nat>)
    requires from <= upto
    ensures forall c: nat :: c in r <==> from <= c < upto
  {
    r := [];
    var ci := from;
    while ci < upto
      invariant from <= ci <= upto
      invariant forall c: nat :: c in r <==> from <= c < ci
    {
      r := r + [ci];
      ci := ci + 1;
    }
  }

  /** The extent has bytes of chunk `ci`. */
  ghost predicate ExtentHas(n: Pos, x: (nat, nat), ci: nat) {
    x.0 < x.1 && x.0 / n <= ci <= (x.1 - 1) / n
  }

  lemma LastChunk(g: Geometry, i: nat)
    requires i < g.size
    ensures i / g.chunkSize < ChunkCount(g)
  {
    ChunkIndex(g, i / g.chunkSize);
  }

  /** The chunks one extent touches. */
  method ChunksOfExtent(g: Geometry, s: nat, e: nat) returns (r: seq<nat>)
    requires s < e <= g.size
    ensures forall c: nat :: c in r <==> ExtentHas(g.chunkSize, (s, e), c)
  {
    var last := (e - 1) / g.chunkSize;
    LastChunk(g, e - 1);
    DivMono(s, e - 1, g.chunkSize);
    r := Numbers(s / g.chunkSize, (if last < ChunkCount(g) - 1 then last else ChunkCount(g) - 1) + 1);
  }

  ghost predicate InRange(g: Geometry, xs: seq<(nat, nat)>, ci: nat) {
    exists k :: 0 <= k < |xs| && ExtentHas(g.chunkSize, xs[k], ci)
  }

  lemma InRangeSnoc(g: Geometry, xs: seq<(nat, nat)>, x: (nat, nat), ci: nat)
    ensures InRange(g, xs + [x], ci) <==> InRange(g, xs, ci) || ExtentHas(g.chunkSize, x, ci)
  {
    var ys := xs + [x];
    if InRange(g, xs, ci) {
      var k :| 0 <= k < |xs| && ExtentHas(g.chunkSize, xs[k], ci);
      assert ys[k] == xs[k];
    }
    assert ys[|xs|] == x;
  }

  lemma BlockBetween(ci: nat, n: Pos, i: nat, lo: nat, hi: nat)
    requires ci * n <= i < ci * n + n && lo <= i < hi
    ensures ExtentHas(n, (lo, hi), ci)
  {
    ModOf(ci, i - ci * n, n);
    DivMono(lo, i, n);
    DivMono(i, hi - 1, n);
  }

  lemma ByteInRange(g: Geometry, t: Top, len: nat, extents: seq<(nat, nat)>, ci: nat, i: nat)
    requires ExtentsOf(extents, t, len) && i < len && Allocated(t, i)
    requires ci * g.chunkSize <= i < ci * g.chunkSize + g.chunkSize
    ensures InRange(g, extents, ci)
  {
    assert InSome(extents, i);
    var k :| 0 <= k < |extents| && extents[k].0 <= i < extents[k].1;
    BlockBetween(ci, g.chunkSize, i, extents[k].0, extents[k].1);
  }

  lemma TouchedIsInRange(g: Geometry, t: Top, len: nat, extents: seq<(nat, nat)>, ci: nat)
    requires ExtentsOf(extents, t, len) && len <= g.size
    requires forall i: nat :: len <= i < g.size ==> !Allocated(t, i)
    requires ci < ChunkCount(g) && Touched(g, t, ci * g.chunkSize)
    ensures InRange(g, extents, ci)
  {
    var off := ci * g.chunkSize;
    var i :| off <= i < off + ChunkLen(g, off) && Allocated(t, i);
    ByteInRange(g, t, len, extents, ci, i);
  }

  lemma BetweenBlocks(s: nat, e: nat, ci: nat, cs: Pos, first: nat, last: nat) returns (i: nat)
    requires s < e && first <= ci <= last && first * cs <= s < first * cs + cs && last * cs <= e - 1
    ensures s <= i < e && ci * cs <= i < ci * cs + cs
  {
    MulLe(ci, last, cs);
    if first < ci {
      MulLt(first, ci, cs);
      i := ci * cs;
    } else {
      i := s;
    }
  }

  /** A block between the first and the last block of a range shares a byte
      with it. */
  lemma InBoth(s: nat, e: nat, ci: nat, cs: Pos) returns (i: nat)
    requires s < e && s / cs <= ci <= (e - 1) / cs
    ensures s <= i < e && ci * cs <= i < ci * cs + cs
  {
    DivBounds(s, cs);
    DivBounds(e - 1, cs);
    i := BetweenBlocks(s, e, ci, cs, s / cs, (e - 1) / cs);
  }

  lemma ExtentTouches(g: Geometry, t: Top, extents: seq<(nat, nat)>, len: nat, k: nat, ci: nat)
    requires ExtentsOf(extents, t, len) && len <= g.size && k < |extents|
    requires ExtentHas(g.chunkSize, extents[k], ci)
    ensures ci < ChunkCount(g) && Touched(g, t, ci * g.chunkSize)
  {
    var (s, e) := extents[k];
    LastChunk(g, e - 1);
    var i := InBoth(s, e, ci, g.chunkSize);
    assert InSome(extents, i);
  }

  lemma RangeIsTouched(g: Geometry, t: Top, len: nat, extents: seq<(nat, nat)>, ci: nat)
    requires ExtentsOf(extents, t, len) && len <= g.size
    requires forall i: nat :: len <= i < g.size ==> !Allocated(t, i)
    ensures InRange(g, extents, ci) <==> ci < ChunkCount(g) && Touched(g, t, ci * g.chunkSize)
  {
    if InRange(g, extents, ci) {
      var k :| 0 <= k < |extents| && ExtentHas(g.chunkSize, extents[k], ci);
      ExtentTouches(g, t, extents, len, k, ci);
    } else if ci < ChunkCount(g) && Touched(g, t, ci * g.chunkSize) {
      TouchedIsInRange(g, t, len, extents, ci);
    }
  }

  /** The chunks that at least one extent touches, in order. */
  method TouchedChunks(g: Geometry, t: Top, len: nat, extents: seq<(nat, nat)>) returns (touched: seq<nat>)
    requires ExtentsOf(extents, t, len) && len <= g.size
    requires forall i: nat :: len <= i < g.size ==> !Allocated(t, i)
    ensures forall i, j :: 0 <= i < j < |touched| ==> touched[i] < touched[j]
    ensures forall ci: nat :: ci in touched <==> ci < ChunkCount(g) && Touched(g, t, ci * g.chunkSize)
  {
    var all: seq<nat> := [];
    var k := 0;
    while k < |extents|
      invariant 0 <= k <= |extents|
      invariant forall c: nat :: c in all <==> InRange(g, extents[..k], c)
    {
      var more := ChunksOfExtent(g, extents[k].0, extents[k].1);
      all := all + more;
      assert extents[..k + 1] == extents[..k] + [extents[k]];
      forall c: nat ensures c in all <==> InRange(g, extents[..k + 1], c) {
        InRangeSnoc(g, extents[..k], extents[k], c);
      }
      k := k + 1;
    }
    assert extents[..k] == extents;
    var sorted := SortByKey(all, x => x);
    Sorts(all, x => x);
    touched := Dedup(sorted);
    forall ci: nat ensures ci in touched <==> ci < ChunkCount(g) && Touched(g, t, ci * g.chunkSize) {
      RangeIsTouched(g, t, len, extents, ci);
    }
  }

  // ---- the seal ------------------------------------------------------------------

  /** What a node keeps on its disk: chunk files, and committed manifests. A
      chunk that is gone locally is fetched if the object store has it. */
  class Node {
    var chunks: set<Digest>
    var layers: set<Layer>
    const remote: set<Digest>
    /** Whether its disk may fail. */
    const mayFail: bool

    constructor (remote: set<Digest>, mayFail: bool)
      ensures chunks == {} && layers == {} && this.remote == remote && this.mayFail == mayFail
    {
      chunks, layers := {}, {};
      this.remote, this.mayFail := remote, mayFail;
    }
  }

  const FLUSH_AT: nat := 67108864

  /** Chunks on their way into the cache, admitted in waves. `mayCancel` is
      set for a seal that stops once its caller went away. */
  class Pending {
    var chunks: seq<Digest>
    var bytes: nat
    const mayCancel: bool
    /** What was admitted through it: under the seal's hold, if it has one. */
    ghost var admitted: set<Digest>

    constructor (mayCancel: bool)
      ensures chunks == [] && bytes == 0 && admitted == {} && this.mayCancel == mayCancel
    {
      chunks, bytes, admitted := [], 0, {};
      this.mayCancel := mayCancel;
    }

    /** What was admitted or is about to be. */
    ghost function Through(): set<Digest>
      reads this
    {
      admitted + set d | d in chunks
    }

    /** Admits what is pending. An admission that fails may have admitted some. */
    method Flush(node: Node) returns (r: Option<Error>)
      modifies this, node`chunks
      ensures old(node.chunks) <= node.chunks
      ensures forall d :: d in node.chunks ==> d in old(node.chunks) || d in old(chunks)
      ensures forall d :: d in old(chunks) ==> d in node.chunks || d in chunks
      ensures r.None? ==> chunks == []
      ensures r.None? ==> admitted == old(admitted) + set d | d in old(chunks)
      ensures r.Some? ==> (r.value == IoFailed && node.mayFail)
                          || (r.value == SealCancelled && mayCancel && node.chunks == old(node.chunks))
    {
      if chunks != [] {
        if mayCancel {
          var gone: bool := *;
          if gone { return Some(SealCancelled); }
        }
        if node.mayFail {
          var failed: bool, some: set<Digest> := *, *;
          if failed {
            node.chunks := node.chunks + (set d | d in chunks && d in some);
            return Some(IoFailed);
          }
        }
        node.chunks := node.chunks + (set d | d in chunks);
        admitted := admitted + set d | d in chunks;
        chunks, bytes := [], 0;
      }
      return None;
    }

    method Push(node: Node, d: Digest, len: nat) returns (r: Option<Error>)
      modifies this, node`chunks
      ensures old(node.chunks) <= node.chunks
      ensures forall x :: x in old(chunks) + [d] ==> x in node.chunks || x in chunks
      ensures r.None? ==> Through() == old(Through()) + {d}
      ensures r.Some? ==> (r.value == IoFailed && node.mayFail) || (r.value == SealCancelled && mayCancel)
    {
      bytes := bytes + len;
      chunks := chunks + [d];
      r := None;
      if bytes >= FLUSH_AT {
        r := Flush(node);
      }
    }
  }

  /** The bytes of a resolved parent, through the cache. */
  method ReadParentChunk(node: Node, g: Geometry, parent: Option<Entry<Digest>>, off: nat)
    returns (r: Result<seq<Byte>, Error>)
    requires parent.Some? ==> EntryOk(g, parent.value)
    modifies node`chunks
    ensures old(node.chunks) <= node.chunks
    ensures r.Ok? ==> r.value == ChunkBytes(g, parent, off)
    ensures IsData(parent) && parent.value.hash !in old(node.chunks) + node.remote ==> r.Err?
    ensures r.Err? ==> IsData(parent)
                       && ((r.error == IoFailed && node.mayFail)
                           || (r.error == ChunkMissing && parent.value.hash !in old(node.chunks) + node.remote))
  {
    if parent.Some? && parent.value.kind.Data? {
      var d := parent.value.hash;
      if node.mayFail {
        var failed: bool := *;
        if failed { return Err(IoFailed); }
      }
      if d !in node.chunks {
        if d !in node.remote { return Err(ChunkMissing); }
        node.chunks := node.chunks + {d};
      }
      return Ok(d.preimage);
    }
    return Ok(Zeros(ChunkLen(g, off)));
  }

  /** Whether one extent covers the whole range. */
  method CoveredWhole(extents: seq<(nat, nat)>, s: nat, e: nat) returns (r: bool)
    ensures r <==> exists k :: 0 <= k < |extents| && extents[k].0 <= s && extents[k].1 >= e
  {
    var n := 0;
    while n < |extents|
      invariant 0 <= n <= |extents|
      invariant forall k :: 0 <= k < n ==> !(extents[k].0 <= s && extents[k].1 >= e)
    {
      if extents[n].0 <= s && extents[n].1 >= e { return true; }
      n := n + 1;
    }
    return false;
  }

  /** Every data chunk of the chain can be had. */
  ghost predicate Available(chunks: set<Digest>, chain: seq<Layer>) {
    forall off {:trigger Resolved(chain, off)} ::
      IsData(Resolved(chain, off)) ==> Resolved(chain, off).value.hash in chunks
  }

  /** So it is if every data chunk of every layer can be had. */
  lemma {:induction false} AllHadIsAvailable(chunks: set<Digest>, chain: seq<Layer>)
    requires forall m, e :: m in chain && e in m.entries && e.kind.Data? ==> e.hash in chunks
    ensures Available(chunks, chain)
  {
    if |chain| > 0 {
      var init, last := chain[..|chain| - 1], chain[|chain| - 1];
      AllHadIsAvailable(chunks, init);
      forall off | IsData(Resolved(chain, off)) ensures Resolved(chain, off).value.hash in chunks {
        if Lookup(last.entries, off).Some? { LookupFound(last.entries, off); }
      }
    }
  }

  lemma ComposedFromTop(g: Geometry, chain: seq<Layer>, t: Top, len: nat, extents: seq<(nat, nat)>, off: nat, k: nat)
    requires ChainOk(g, chain) && TopOk(t) && ExtentsOf(extents, t, len) && len <= |t.data|
    requires k < |extents| && extents[k].0 <= off && extents[k].1 >= off + ChunkLen(g, off)
    ensures off + ChunkLen(g, off) <= |t.data|
    ensures t.data[off..off + ChunkLen(g, off)] == Composed(g, chain, t, off)
  {
    forall j: nat | off <= j < off + ChunkLen(g, off) ensures Allocated(t, j) {
      assert InSome(extents, j);
    }
  }

  lemma ComposedFromOverlay(g: Geometry, chain: seq<Layer>, t: Top, len: nat, extents: seq<(nat, nat)>, off: nat,
                            buf: seq<Byte>)
    requires ChainOk(g, chain) && TopOk(t) && ExtentsOf(extents, t, len) && len <= |t.data|
    requires forall i: nat :: len <= i < g.size ==> !Allocated(t, i)
    requires ChunkOffset(g, off) && |buf| == ChunkLen(g, off)
    requires Overlaid(buf, t, extents, off, |buf|, ViewChunk(g, chain, off))
    ensures buf == Composed(g, chain, t, off)
  {
    forall k | 0 <= k < |buf| ensures buf[k] == Composed(g, chain, t, off)[k] {
      ExtentsWithin(extents, t, len, off + k);
    }
  }

  /** One touched chunk: the top alone where an extent covers it, else the
      top's extents over what the chain shows. */
  method Compose(node: Node, g: Geometry, t: Top, len: nat, extents: seq<(nat, nat)>, chain: seq<Layer>, off: nat)
    returns (r: Result<seq<Byte>, Error>)
    requires ChainOk(g, chain) && TopOk(t) && ExtentsOf(extents, t, len) && len <= |t.data| && len <= g.size
    requires forall i: nat :: len <= i < g.size ==> !Allocated(t, i)
    requires ChunkOffset(g, off)
    modifies node`chunks
    ensures old(node.chunks) <= node.chunks
    ensures r.Ok? ==> r.value == Composed(g, chain, t, off)
    ensures r.Err? ==> (r.error == IoFailed && node.mayFail)
                       || (r.error == ChunkMissing && !Available(old(node.chunks) + node.remote, chain))
  {
    if node.mayFail {
      var failed: bool := *;
      if failed { return Err(IoFailed); }
    }
    var rawLen := ChunkLen(g, off);
    var parent := Resolve(chain, off);
    ResolvedOk(g, chain, off);
    var full := CoveredWhole(extents, off, off + rawLen);
    if full {
      ghost var k :| 0 <= k < |extents| && extents[k].0 <= off && extents[k].1 >= off + rawLen;
      ComposedFromTop(g, chain, t, len, extents, off, k);
      return Ok(t.data[off..off + rawLen]);
    }
    var base := ReadParentChunk(node, g, parent, off);
    if base.Err? { return base; }
    var buf := OverlayExtents(t, extents, off, rawLen, base.value);
    ComposedFromOverlay(g, chain, t, len, extents, off, buf);
    return Ok(buf);
  }

  ghost predicate MergeOk(g: Geometry, chain: seq<Layer>, mergeWith: Option<Layer>) {
    mergeWith.Some? ==>
      |chain| > 0 && chain[|chain| - 1] == mergeWith.value
      && mergeWith.value.chunkSize == g.chunkSize && mergeWith.value.logicalSize == g.size
  }

  ghost function SharedOf(chain: seq<Layer>, mergeWith: Option<Layer>): seq<Layer> {
    if mergeWith.Some? && |chain| > 0 then chain[..|chain| - 1] else chain
  }

  lemma ChainOfShared(g: Geometry, chain: seq<Layer>, mergeWith: Option<Layer>)
    requires MergeOk(g, chain, mergeWith)
    ensures Chain(SharedOf(chain, mergeWith), mergeWith) == chain
  {
  }

  /** What the entries say after the touched chunks in `done`. */
  ghost predicate EntriesFor(g: Geometry, shared: seq<Layer>, own: Option<Layer>, t: Top,
                             done: seq<nat>, es: seq<Entry<Digest>>)
    requires ChainOk(g, Chain(shared, own)) && TopOk(t)
  {
    && (forall e :: e in es ==> e.offset / g.chunkSize in done && ChunkOffset(g, e.offset)
                                && NewEntry(g, shared, own, t, e.offset) == Some(e))
    && (forall ci: nat {:trigger ci in done} :: ci in done && NewEntry(g, shared, own, t, ci * g.chunkSize).Some? ==>
          NewEntry(g, shared, own, t, ci * g.chunkSize).value in es)
  }

  ghost predicate Increasing(s: seq<nat>) {
    forall i, j :: 0 <= i < j < |s| ==> s[i] < s[j]
  }

  function WithNext(es: seq<Entry<Digest>>, next: Option<Entry<Digest>>): seq<Entry<Digest>> {
    es + if next.Some? then [next.value] else []
  }

  lemma NextEntry(g: Geometry, shared: seq<Layer>, own: Option<Layer>, t: Top,
                  touched: seq<nat>, k: nat, es: seq<Entry<Digest>>, next: Option<Entry<Digest>>)
    requires ChainOk(g, Chain(shared, own)) && TopOk(t)
    requires k < |touched| && Increasing(touched) && touched[k] < ChunkCount(g)
    requires Sorted(es) && EntriesFor(g, shared, own, t, touched[..k], es)
    requires next == NewEntry(g, shared, own, t, touched[k] * g.chunkSize)
    requires next.Some? ==> next.value.offset == touched[k] * g.chunkSize
    ensures Sorted(WithNext(es, next)) && EntriesFor(g, shared, own, t, touched[..k + 1], WithNext(es, next))
  {
    ChunkIndex(g, touched[k]);
    MulMod(touched[k], g.chunkSize);
    assert touched[..k + 1] == touched[..k] + [touched[k]];
    forall e | e in es ensures e.offset < touched[k] * g.chunkSize {
      ChunkIndexOf(g, e.offset);
      MulLt(e.offset / g.chunkSize, touched[k], g.chunkSize);
    }
  }

  /** One touched chunk: composed, classified, and handed on if it is new. */
  method TouchedEntry(node: Node, pending: Pending, g: Geometry, t: Top, len: nat, extents: seq<(nat, nat)>,
                      shared: seq<Layer>, own: Option<Layer>, chain: seq<Layer>, off: nat, held: bool)
    returns (r: Result<Option<Entry<Digest>>, Error>)
    requires chain == Chain(shared, own) && ChainOk(g, chain) && ChainOk(g, shared) && TopOk(t)
    requires ExtentsOf(extents, t, len) && len <= |t.data| && len <= g.size
    requires forall i: nat :: len <= i < g.size ==> !Allocated(t, i)
    requires ChunkOffset(g, off) && Touched(g, t, off)
    modifies pending, node`chunks
    ensures old(node.chunks) <= node.chunks
    ensures forall d :: d in old(pending.chunks) ==> d in node.chunks || d in pending.chunks
    ensures r.Ok? ==> r.value == NewEntry(g, shared, own, t, off)
    ensures r.Ok? && r.value.Some? ==> r.value.value.offset == off
    ensures r.Ok? && r.value.Some? && r.value.value.kind.Data? ==>
              && (r.value.value.hash in node.chunks || r.value.value.hash in pending.chunks)
              && (held ==> r.value.value.hash in pending.Through())
    ensures r.Ok? ==> old(pending.Through()) <= pending.Through()
    ensures r.Err? ==> r.error != CorruptManifest
    ensures r == Err(IoFailed) ==> node.mayFail
    ensures r == Err(SealCancelled) ==> pending.mayCancel
    ensures r == Err(ChunkMissing) ==> !Available(old(node.chunks) + node.remote, chain)
  {
    if pending.mayCancel {
      var gone: bool := *;
      if gone { return Err(SealCancelled); }
    }
    var classParent := Resolve(shared, off);
    var composed := Compose(node, g, t, len, extents, chain, off);
    if composed.Err? { return Err(composed.error); }
    var buf := composed.value;
    var entry := Classify(g, off, buf, classParent);
    if entry.Some? && entry.value.kind.Data? && (held || Blake3(buf) !in node.chunks) {
      var pushed := pending.Push(node, Blake3(buf), |buf|);
      if pushed.Some? { return Err(pushed.value); }
    }
    return Ok(entry);
  }

  /** Each data entry's chunk is in the cache or on its way there. */
  ghost predicate InReach(es: seq<Entry<Digest>>, chunks: set<Digest>, pending: seq<Digest>) {
    forall e :: e in es && e.kind.Data? ==> e.hash in chunks || e.hash in pending
  }

  /** Each data entry's chunk was admitted, or will be, through the seal. */
  ghost predicate AllThrough(es: seq<Entry<Digest>>, admitted: set<Digest>) {
    forall e :: e in es && e.kind.Data? ==> e.hash in admitted
  }

  lemma ReachNext(es: seq<Entry<Digest>>, next: Option<Entry<Digest>>, chunks: set<Digest>, pending: seq<Digest>,
                  chunks': set<Digest>, pending': seq<Digest>)
    requires InReach(es, chunks, pending) && chunks <= chunks'
    requires forall d :: d in pending ==> d in chunks' || d in pending'
    requires next.Some? && next.value.kind.Data? ==> next.value.hash in chunks' || next.value.hash in pending'
    ensures InReach(WithNext(es, next), chunks', pending')
  {
  }

  lemma ThroughNext(es: seq<Entry<Digest>>, next: Option<Entry<Digest>>, admitted: set<Digest>, admitted': set<Digest>)
    requires AllThrough(es, admitted) && admitted <= admitted'
    requires next.Some? && next.value.kind.Data? ==> next.value.hash in admitted'
    ensures AllThrough(WithNext(es, next), admitted')
  {
  }

  /** The entries of the touched chunks, in order; their new chunks are in the
      cache or pending. */
  method TouchedEntries(node: Node, pending: Pending, g: Geometry, t: Top, len: nat, extents: seq<(nat, nat)>,
                        shared: seq<Layer>, own: Option<Layer>, chain: seq<Layer>, touched: seq<nat>, held: bool)
    returns (r: Result<seq<Entry<Digest>>, Error>)
    requires chain == Chain(shared, own) && ChainOk(g, chain) && ChainOk(g, shared) && TopOk(t)
    requires ExtentsOf(extents, t, len) && len <= |t.data| && len <= g.size
    requires forall i: nat :: len <= i < g.size ==> !Allocated(t, i)
    requires Increasing(touched)
    requires forall ci: nat :: ci in touched ==> ci < ChunkCount(g) && Touched(g, t, ci * g.chunkSize)
    modifies pending, node`chunks
    ensures old(node.chunks) <= node.chunks
    ensures r.Ok? ==> Sorted(r.value) && EntriesFor(g, shared, own, t, touched, r.value)
    ensures r.Ok? ==> InReach(r.value, node.chunks, pending.chunks)
    ensures r.Ok? && held ==> AllThrough(r.value, pending.Through())
    ensures r.Err? ==> r.error != CorruptManifest
    ensures r == Err(IoFailed) ==> node.mayFail
    ensures r == Err(SealCancelled) ==> pending.mayCancel
    ensures r == Err(ChunkMissing) ==> !Available(old(node.chunks) + node.remote, chain)
  {
    var entries: seq<Entry<Digest>> := [];
    var k := 0;
    while k < |touched|
      invariant 0 <= k <= |touched|
      invariant Sorted(entries) && EntriesFor(g, shared, own, t, touched[..k], entries)
      invariant InReach(entries, node.chunks, pending.chunks)
      invariant held ==> AllThrough(entries, pending.Through())
      invariant old(node.chunks) <= node.chunks
    {
      assert touched[k] in touched;
      ChunkIndex(g, touched[k]);
      ghost var chunks, waiting, through := node.chunks, pending.chunks, pending.Through();
      var entry := TouchedEntry(node, pending, g, t, len, extents, shared, own, chain, touched[k] * g.chunkSize, held);
      if entry.Err? { return Err(entry.error); }
      NextEntry(g, shared, own, t, touched, k, entries, entry.value);
      ReachNext(entries, entry.value, chunks, waiting, node.chunks, pending.chunks);
      if held { ThroughNext(entries, entry.value, through, pending.Through()); }
      entries := WithNext(entries, entry.value);
      k := k + 1;
    }
    assert touched[..k] == touched;
    return Ok(entries);
  }

  lemma OffsetInTouched(g: Geometry, touched: seq<nat>, offsets: set<nat>, off: nat)
    requires offsets == set ci | ci in touched :: ci * g.chunkSize
    requires ChunkOffset(g, off)
    ensures off in offsets <==> off / g.chunkSize in touched
  {
    ChunkIndexOf(g, off);
    if off in offsets {
      var ci :| ci in touched && off == ci * g.chunkSize;
      MulMod(ci, g.chunkSize);
    }
  }

  /** Adds the entries of the merged layer that the top did not override. */
  method Flatten(g: Geometry, entries: seq<Entry<Digest>>, touched: seq<nat>, own: Layer)
    returns (r: seq<Entry<Digest>>)
    requires Sorted(entries) && LayerOk(g, own)
    requires forall e :: e in entries ==> ChunkOffset(g, e.offset) && e.offset / g.chunkSize in touched
    ensures Sorted(r)
    ensures forall e :: e in r <==> e in entries || (e in own.entries && e.offset / g.chunkSize !in touched)
  {
    var offsets := set ci | ci in touched :: ci * g.chunkSize;
    var kept := [];
    var k := 0;
    while k < |own.entries|
      invariant 0 <= k <= |own.entries|
      invariant Sorted(kept)
      invariant forall e :: e in kept <==> e in own.entries[..k] && e.offset / g.chunkSize !in touched
    {
      var e := own.entries[k];
      assert e in own.entries;
      ChunkIndexOf(g, e.offset);
      OffsetInTouched(g, touched, offsets, e.offset);
      assert own.entries[..k + 1] == own.entries[..k] + [e];
      if e.offset !in offsets {
        assert forall x :: x in kept ==> x in own.entries[..k];
        kept := kept + [e];
      }
      k := k + 1;
    }
    assert own.entries[..k] == own.entries;
    var key := (e: Entry<Digest>) => e.offset;
    var all := entries + kept;
    forall i, j | 0 <= i < j < |all| ensures key(all[i]) != key(all[j]) {
      if i < |entries| <= j {
        assert all[i] in entries && all[j] in kept;
      }
    }
    Sorts(all, key);
    SortsStrictly(all, key);
    r := SortByKey(all, key);
    assert forall i, j :: 0 <= i < j < |r| ==> key(r[i]) < key(r[j]);
  }

  lemma NewEntryOk(g: Geometry, shared: seq<Layer>, own: Option<Layer>, t: Top, off: nat)
    requires ChainOk(g, Chain(shared, own)) && ChainOk(g, shared) && TopOk(t) && ChunkOffset(g, off)
    ensures NewEntry(g, shared, own, t, off).Some? ==>
              NewEntry(g, shared, own, t, off).value.offset == off && EntryOk(g, NewEntry(g, shared, own, t, off).value)
  {
    if own.Some? {
      assert own.value in Chain(shared, own);
      LookupOk(g, own.value, off);
    }
  }

  lemma SealedPlaced(g: Geometry, shared: seq<Layer>, own: Option<Layer>, t: Top)
    requires ChainOk(g, Chain(shared, own)) && ChainOk(g, shared) && TopOk(t)
    ensures Placed(g, (off: nat) => NewEntry(g, shared, own, t, off))
  {
    forall off: nat | ChunkOffset(g, off) {
      NewEntryOk(g, shared, own, t, off);
    }
  }

  /** A sorted table with exactly the entries of `NewEntry` is the sealed one. */
  lemma IsSealed(g: Geometry, shared: seq<Layer>, own: Option<Layer>, t: Top, es: seq<Entry<Digest>>)
    requires ChainOk(g, Chain(shared, own)) && ChainOk(g, shared) && TopOk(t) && Sorted(es)
    requires forall e :: e in es ==> ChunkOffset(g, e.offset) && NewEntry(g, shared, own, t, e.offset) == Some(e)
    requires forall off :: ChunkOffset(g, off) && NewEntry(g, shared, own, t, off).Some? ==>
               NewEntry(g, shared, own, t, off).value in es
    ensures es == Sealed(g, shared, own, t).entries
  {
    var f := (off: nat) => NewEntry(g, shared, own, t, off);
    SealedPlaced(g, shared, own, t);
    TabulateSorted(g, f, ChunkCount(g));
    forall off | ChunkOffset(g, off)
      ensures Lookup(es, off) == Lookup(Tabulate(g, f, ChunkCount(g)), off)
    {
      TabulateLookup(g, f, off);
      if f(off).Some? {
        LookupIn(es, f(off).value);
      } else if Lookup(es, off).Some? {
        LookupFound(es, off);
      }
    }
    TablesEqualByChunk(g, es, Tabulate(g, f, ChunkCount(g)));
  }

  /** A new entry is one of the touched chunks', or of the merged layer. */
  lemma NewEntryFrom(g: Geometry, shared: seq<Layer>, own: Option<Layer>, t: Top, touched: seq<nat>,
                     some: seq<Entry<Digest>>, off: nat)
    requires ChainOk(g, Chain(shared, own)) && TopOk(t) && ChunkOffset(g, off)
    requires forall ci: nat :: ci in touched <==> ci < ChunkCount(g) && Touched(g, t, ci * g.chunkSize)
    requires EntriesFor(g, shared, own, t, touched, some) && NewEntry(g, shared, own, t, off).Some?
    ensures var e := NewEntry(g, shared, own, t, off).value;
            e in some || (own.Some? && e in own.value.entries && e.offset / g.chunkSize !in touched)
  {
    ChunkIndexOf(g, off);
    if off / g.chunkSize !in touched {
      LookupFound(own.value.entries, off);
    }
  }

  /** An entry of a chunk the top does not touch is kept as it is. */
  lemma KeptEntry(g: Geometry, shared: seq<Layer>, own: Layer, t: Top, touched: seq<nat>, e: Entry<Digest>)
    requires ChainOk(g, Chain(shared, Some(own))) && TopOk(t)
    requires forall ci: nat :: ci in touched <==> ci < ChunkCount(g) && Touched(g, t, ci * g.chunkSize)
    requires e in own.entries && e.offset / g.chunkSize !in touched
    ensures ChunkOffset(g, e.offset) && !Touched(g, t, e.offset)
    ensures NewEntry(g, shared, Some(own), t, e.offset) == Some(e)
  {
    assert own in Chain(shared, Some(own));
    ChunkIndexOf(g, e.offset);
    LookupIn(own.entries, e);
  }

  lemma EntriesComplete(g: Geometry, shared: seq<Layer>, own: Option<Layer>, t: Top, touched: seq<nat>,
                        some: seq<Entry<Digest>>, es: seq<Entry<Digest>>)
    requires ChainOk(g, Chain(shared, own)) && ChainOk(g, shared) && TopOk(t)
    requires forall ci: nat :: ci in touched <==> ci < ChunkCount(g) && Touched(g, t, ci * g.chunkSize)
    requires EntriesFor(g, shared, own, t, touched, some)
    requires forall e :: e in es <==>
               e in some || (own.Some? && e in own.value.entries && e.offset / g.chunkSize !in touched)
    ensures forall e :: e in es ==> ChunkOffset(g, e.offset) && NewEntry(g, shared, own, t, e.offset) == Some(e)
    ensures forall off :: ChunkOffset(g, off) && NewEntry(g, shared, own, t, off).Some? ==>
              NewEntry(g, shared, own, t, off).value in es
    ensures forall e :: e in es && Touched(g, t, e.offset) ==> e in some
  {
    forall e | e in es && e !in some
      ensures ChunkOffset(g, e.offset) && NewEntry(g, shared, own, t, e.offset) == Some(e) && !Touched(g, t, e.offset)
    {
      KeptEntry(g, shared, own.value, t, touched, e);
    }
    forall off: nat | ChunkOffset(g, off) && NewEntry(g, shared, own, t, off).Some?
      ensures NewEntry(g, shared, own, t, off).value in es
    {
      NewEntryFrom(g, shared, own, t, touched, some, off);
    }
  }

  /** The entries of the layer a seal makes; the new chunks are in the cache or
      pending. */
  method SealedEntries(node: Node, pending: Pending, g: Geometry, t: Top, shared: seq<Layer>, own: Option<Layer>,
                       chain: seq<Layer>, held: bool)
    returns (r: Result<seq<Entry<Digest>>, Error>)
    requires chain == Chain(shared, own) && ChainOk(g, chain) && ChainOk(g, shared) && TopOk(t)
    requires own.Some? ==> LayerOk(g, own.value)
    modifies pending, node`chunks
    ensures old(node.chunks) <= node.chunks
    ensures r.Ok? ==> r.value == Sealed(g, shared, own, t).entries
    ensures r.Ok? ==> forall e :: e in r.value && e.kind.Data? && Touched(g, t, e.offset) ==>
                        e.hash in node.chunks || e.hash in pending.chunks
    ensures r.Ok? && held ==>
              forall e :: e in r.value && e.kind.Data? && Touched(g, t, e.offset) ==> e.hash in pending.Through()
    ensures r.Err? ==> r.error != CorruptManifest
    ensures r == Err(IoFailed) ==> node.mayFail
    ensures r == Err(SealCancelled) ==> pending.mayCancel
    ensures r == Err(ChunkMissing) ==> !Available(old(node.chunks) + node.remote, chain)
  {
    if node.mayFail {
      var read: bool := *;
      if !read { return Err(IoFailed); }
    }
    var len := if |t.data| < g.size then |t.data| else g.size;
    var extents := DataExtents(t, len);
    var touched := TouchedChunks(g, t, len, extents);
    var some := TouchedEntries(node, pending, g, t, len, extents, shared, own, chain, touched, held);
    if some.Err? { return some; }
    var entries := some.value;
    if own.Some? {
      entries := Flatten(g, some.value, touched, own.value);
    }
    EntriesComplete(g, shared, own, t, touched, some.value, entries);
    IsSealed(g, shared, own, t, entries);
    return Ok(entries);
  }

  /** Seals `t` over `chain`; with `mergeWith`, the chain's last layer is
      flattened into the result. Commits the layer last, or nothing. With `held` every
      touched data chunk, also one the cache has, is admitted under the hold. */
  method SealTop(node: Node, g: Geometry, t: Top, chain: seq<Layer>, mergeWith: Option<Layer>,
                 held: bool, mayCancel: bool)
    returns (r: Result<Layer, Error>, ghost admitted: set<Digest>)
    requires TopOk(t)
    requires ChainOk(g, SharedOf(chain, mergeWith))
    requires MergeOk(g, chain, mergeWith) && mergeWith.Some? ==> LayerOk(g, mergeWith.value)
    modifies node
    ensures old(node.chunks) <= node.chunks
    ensures node.layers == old(node.layers) + (if r.Ok? then {r.value} else {})
    ensures r == Err(CorruptManifest) <==> !MergeOk(g, chain, mergeWith)
    ensures r.Ok? ==> ChainOk(g, Chain(SharedOf(chain, mergeWith), mergeWith))
                      && r.value == Sealed(g, SharedOf(chain, mergeWith), mergeWith, t)
    ensures r.Ok? ==>
              forall e :: e in r.value.entries && e.kind.Data? && Touched(g, t, e.offset) ==> e.hash in node.chunks
    ensures r.Ok? && held ==>
              forall e :: e in r.value.entries && e.kind.Data? && Touched(g, t, e.offset) ==> e.hash in admitted
    ensures r == Err(SealCancelled) ==> mayCancel
    ensures r == Err(IoFailed) ==> node.mayFail
    ensures r == Err(ChunkMissing) ==> !Available(old(node.chunks) + node.remote, chain)
  {
    admitted := {};
    var shared := chain;
    if mergeWith.Some? {
      var s := mergeWith.value;
      if |chain| == 0 { return Err(CorruptManifest), {}; }
      if chain[|chain| - 1] != s { return Err(CorruptManifest), {}; }
      if s.chunkSize != g.chunkSize || s.logicalSize != g.size { return Err(CorruptManifest), {}; }
      shared := chain[..|chain| - 1];
    }
    ChainOfShared(g, chain, mergeWith);

    var pending := new Pending(mayCancel);
    var entries := SealedEntries(node, pending, g, t, shared, mergeWith, chain, held);
    if entries.Err? { return Err(entries.error), {}; }
    var flushed := pending.Flush(node);
    if flushed.Some? { return Err(flushed.value), {}; }
    if mayCancel {
      var gone: bool := *;
      if gone { return Err(SealCancelled), {}; }
    }
    if node.mayFail {
      var committed: bool := *;
      if !committed { return Err(IoFailed), {}; }
    }
    var parent := if |shared| == 0 then None else Some(LayerId(shared[|shared| - 1]));
    var layer := Manifest(g.chunkSize, g.size, parent, entries.value);
    node.layers := node.layers + {layer};
    return Ok(layer), pending.admitted;
  }
}
