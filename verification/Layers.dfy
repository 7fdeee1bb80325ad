/** Immutable, content-addressed layers and the disk a chain of them shows. */
module Layers {
  import opened Wrappers
  import opened Manifests
  import opened Arithmetic

  type Byte = b: int | 0 <= b < 256

  /** An ideal hash: equal digests stand for equal bytes. `NoDigest` is the
      all-zero hash of a `zero` entry, which no chunk has. */
  datatype Digest = Blake3(preimage: seq<Byte>) | NoDigest

  /** A layer is known by what is hashed into its id. */
  datatype LayerId = LayerId(layer: Manifest<LayerId, Digest>)
  type Layer = Manifest<LayerId, Digest>

  /** A disk's shape. `compLen` is the length a chunk compresses to. */
  datatype Geometry = Geometry(chunkSize: Pos, size: nat, compLen: seq<Byte> -> nat)

  function ChunkCount(g: Geometry): nat {
    (g.size + g.chunkSize - 1) / g.chunkSize
  }

  /** The length of the chunk at `off`; the last one may be short. */
  function ChunkLen(g: Geometry, off: nat): nat {
    if off >= g.size then 0
    else if g.size - off < g.chunkSize then g.size - off
    else g.chunkSize
  }

  function ChunkStart(g: Geometry, i: nat): nat {
    i - i % g.chunkSize
  }

  predicate ChunkOffset(g: Geometry, off: nat) {
    off % g.chunkSize == 0 && off < g.size
  }

  function Zeros(n: nat): (z: seq<Byte>)
    ensures |z| == n && forall i :: 0 <= i < n ==> z[i] == 0
  {
    seq(n, i => 0)
  }

  predicate AllZero(s: seq<Byte>) {
    forall i :: 0 <= i < |s| ==> s[i] == 0
  }

  lemma AllZeroIsZeros(s: seq<Byte>)
    requires AllZero(s)
    ensures s == Zeros(|s|)
  {
  }

  // ---- chunk arithmetic ----------------------------------------------------

  lemma StartOfChunk(g: Geometry, off: nat, i: nat)
    requires off % g.chunkSize == 0 && off <= i < off + g.chunkSize
    ensures ChunkStart(g, i) == off
  {
    var n := g.chunkSize;
    var k := off / n;
    assert off == k * n;
    assert i == k * n + (i - off);
    assert i % n == i - off by { ModOf(k, i - off, n); }
  }

  /** Every byte lies in one chunk. */
  lemma ChunkOfByte(g: Geometry, i: nat)
    requires i < g.size
    ensures ChunkOffset(g, ChunkStart(g, i))
    ensures ChunkStart(g, i) <= i < ChunkStart(g, i) + ChunkLen(g, ChunkStart(g, i))
  {
    var n := g.chunkSize;
    assert ChunkStart(g, i) == (i / n) * n;
    MulMod(i / n, n);
  }

  /** The chunk offsets are the multiples of the chunk size below the count. */
  lemma ChunkIndex(g: Geometry, ci: nat)
    ensures ci < ChunkCount(g) <==> ci * g.chunkSize < g.size
    ensures ci < ChunkCount(g) ==> ChunkOffset(g, ci * g.chunkSize)
  {
    CeilIndex(ci, g.size, g.chunkSize);
    MulMod(ci, g.chunkSize);
  }

  lemma ChunkIndexOf(g: Geometry, off: nat)
    requires ChunkOffset(g, off)
    ensures off == (off / g.chunkSize) * g.chunkSize && off / g.chunkSize < ChunkCount(g)
  {
    ChunkIndex(g, off / g.chunkSize);
  }

  // ---- layers ----------------------------------------------------------------

  ghost predicate EntryOk(g: Geometry, e: Entry<Digest>) {
    && ChunkOffset(g, e.offset)
    && e.rawLen == ChunkLen(g, e.offset)
    && (e.kind.Data? ==> e.hash.Blake3? && |e.hash.preimage| == e.rawLen)
  }

  ghost predicate LayerOk(g: Geometry, m: Layer) {
    && m.chunkSize == g.chunkSize
    && m.logicalSize == g.size
    && Sorted(m.entries)
    && forall e :: e in m.entries ==> EntryOk(g, e)
  }

  /** The layers of a chain, oldest first. */
  ghost predicate ChainOk(g: Geometry, chain: seq<Layer>) {
    forall m :: m in chain ==> LayerOk(g, m)
  }

  ghost function ParentId(chain: seq<Layer>): Option<LayerId> {
    if |chain| == 0 then None else Some(LayerId(chain[|chain| - 1]))
  }

  lemma LookupOk(g: Geometry, m: Layer, off: nat)
    requires LayerOk(g, m)
    ensures Lookup(m.entries, off).Some? ==>
              EntryOk(g, Lookup(m.entries, off).value) && Lookup(m.entries, off).value.offset == off
  {
    if Lookup(m.entries, off).Some? { LookupFound(m.entries, off); }
  }

  lemma {:induction false} ResolvedOk(g: Geometry, chain: seq<Layer>, off: nat)
    requires ChainOk(g, chain)
    ensures Resolved(chain, off).Some? ==>
              EntryOk(g, Resolved(chain, off).value) && Resolved(chain, off).value.offset == off
  {
    if |chain| > 0 {
      LookupOk(g, chain[|chain| - 1], off);
      ResolvedOk(g, chain[..|chain| - 1], off);
    }
  }

  ghost predicate IsData(e: Option<Entry<Digest>>) {
    e.Some? && e.value.kind.Data? && e.value.hash.Blake3?
  }

  /** What a resolved entry reads as: its chunk, or zeros for a `zero` entry
      and for a chunk no layer has. */
  ghost function ChunkBytes(g: Geometry, e: Option<Entry<Digest>>, off: nat): seq<Byte> {
    if IsData(e) then e.value.hash.preimage else Zeros(ChunkLen(g, off))
  }

  ghost function ViewChunk(g: Geometry, chain: seq<Layer>, off: nat): (r: seq<Byte>)
    requires ChainOk(g, chain)
    ensures |r| == ChunkLen(g, off)
  {
    ResolvedOk(g, chain, off);
    ChunkBytes(g, Resolved(chain, off), off)
  }

  ghost function ViewByte(g: Geometry, chain: seq<Layer>, i: nat): Byte
    requires ChainOk(g, chain) && i < g.size
  {
    ChunkOfByte(g, i);
    ViewChunk(g, chain, ChunkStart(g, i))[i - ChunkStart(g, i)]
  }

  /** The disk a chain shows. */
  ghost function View(g: Geometry, chain: seq<Layer>): (r: seq<Byte>)
    requires ChainOk(g, chain)
    ensures |r| == g.size
    ensures forall i :: 0 <= i < g.size ==> r[i] == ViewByte(g, chain, i)
  {
    seq(g.size, i requires 0 <= i < g.size => ViewByte(g, chain, i))
  }

  /** The part of a disk's bytes that a chunk holds. */
  ghost function Slice(g: Geometry, bytes: seq<Byte>, off: nat): seq<Byte>
    requires |bytes| == g.size && off <= g.size
  {
    bytes[off..off + ChunkLen(g, off)]
  }

  lemma ViewSlice(g: Geometry, chain: seq<Layer>, off: nat)
    requires ChainOk(g, chain) && ChunkOffset(g, off)
    ensures Slice(g, View(g, chain), off) == ViewChunk(g, chain, off)
  {
    forall k | 0 <= k < ChunkLen(g, off)
      ensures Slice(g, View(g, chain), off)[k] == ViewChunk(g, chain, off)[k]
    {
      StartOfChunk(g, off, off + k);
    }
  }

  /** Disks that agree chunk by chunk are equal. */
  lemma EqualByChunks(g: Geometry, a: seq<Byte>, b: seq<Byte>)
    requires |a| == g.size && |b| == g.size
    requires forall off :: ChunkOffset(g, off) ==> Slice(g, a, off) == Slice(g, b, off)
    ensures a == b
  {
    forall i | 0 <= i < g.size ensures a[i] == b[i] {
      ChunkOfByte(g, i);
      var off := ChunkStart(g, i);
      assert Slice(g, a, off)[i - off] == Slice(g, b, off)[i - off];
    }
  }

  // ---- tables by chunk -----------------------------------------------------

  /** The table with the entry `f` gives for each of the first `n` chunks. */
  ghost function Tabulate(g: Geometry, f: nat -> Option<Entry<Digest>>, n: nat): seq<Entry<Digest>> {
    if n == 0 then []
    else
      var e := f((n - 1) * g.chunkSize);
      Tabulate(g, f, n - 1) + if e.Some? then [e.value] else []
  }

  /** `f` puts each entry at the offset it is asked for. */
  ghost predicate Placed(g: Geometry, f: nat -> Option<Entry<Digest>>) {
    forall off :: ChunkOffset(g, off) && f(off).Some? ==> f(off).value.offset == off
  }

  lemma {:induction false} TabulateSorted(g: Geometry, f: nat -> Option<Entry<Digest>>, n: nat)
    requires Placed(g, f) && n <= ChunkCount(g)
    ensures Sorted(Tabulate(g, f, n))
    ensures forall e :: e in Tabulate(g, f, n) ==>
              ChunkOffset(g, e.offset) && f(e.offset) == Some(e) && e.offset < n * g.chunkSize
  {
    if n > 0 {
      TabulateSorted(g, f, n - 1);
      ChunkIndex(g, n - 1);
    }
  }

  lemma {:induction false} TabulateHas(g: Geometry, f: nat -> Option<Entry<Digest>>, n: nat, off: nat)
    requires Placed(g, f) && n <= ChunkCount(g)
    requires ChunkOffset(g, off) && off < n * g.chunkSize && f(off).Some?
    ensures f(off).value in Tabulate(g, f, n)
  {
    ChunkIndexOf(g, off);
    MulLt(off / g.chunkSize, n, g.chunkSize);
    if off != (n - 1) * g.chunkSize {
      MulLt(off / g.chunkSize, n - 1, g.chunkSize);
      TabulateHas(g, f, n - 1, off);
    }
  }

  /** Looking up a chunk in the table gives what `f` says. */
  lemma TabulateLookup(g: Geometry, f: nat -> Option<Entry<Digest>>, off: nat)
    requires Placed(g, f) && ChunkOffset(g, off)
    ensures Lookup(Tabulate(g, f, ChunkCount(g)), off) == f(off)
  {
    var n := ChunkCount(g);
    var es := Tabulate(g, f, n);
    TabulateSorted(g, f, n);
    if Lookup(es, off).Some? {
      LookupFound(es, off);
    } else if f(off).Some? {
      ChunkIndexOf(g, off);
      MulLt(off / g.chunkSize, n, g.chunkSize);
      TabulateHas(g, f, n, off);
      LookupIn(es, f(off).value);
    }
  }

  lemma OffsetOfChunk(g: Geometry, es: seq<Entry<Digest>>, off: nat)
    requires forall e :: e in es ==> ChunkOffset(g, e.offset)
    ensures Lookup(es, off).Some? ==> ChunkOffset(g, off)
  {
    TableKeys(es);
  }

  lemma TablesEqual(a: seq<Entry<Digest>>, b: seq<Entry<Digest>>)
    requires forall off: nat :: Lookup(a, off) == Lookup(b, off)
    ensures Table(a) == Table(b)
  {
    forall off: nat ensures off in Table(a) <==> off in Table(b) {
      assert Lookup(a, off) == Lookup(b, off);
    }
    forall off: nat | off in Table(a) ensures Table(a)[off] == Table(b)[off] {
      assert Lookup(a, off) == Lookup(b, off);
    }
  }

  /** Two sorted tables of chunk offsets that agree on every chunk are equal. */
  lemma TablesEqualByChunk(g: Geometry, a: seq<Entry<Digest>>, b: seq<Entry<Digest>>)
    requires Sorted(a) && Sorted(b)
    requires forall e :: e in a ==> ChunkOffset(g, e.offset)
    requires forall e :: e in b ==> ChunkOffset(g, e.offset)
    requires forall off :: ChunkOffset(g, off) ==> Lookup(a, off) == Lookup(b, off)
    ensures a == b
  {
    forall off ensures Lookup(a, off) == Lookup(b, off) {
      OffsetOfChunk(g, a, off);
      OffsetOfChunk(g, b, off);
    }
    TablesEqual(a, b);
    SortedTablesEqual(a, b);
  }

  lemma {:induction false} TabulateSame(g: Geometry, f: nat -> Option<Entry<Digest>>,
                                        h: nat -> Option<Entry<Digest>>, n: nat)
    requires n <= ChunkCount(g)
    requires forall off :: ChunkOffset(g, off) ==> f(off) == h(off)
    ensures Tabulate(g, f, n) == Tabulate(g, h, n)
  {
    if n > 0 {
      ChunkIndex(g, n - 1);
      TabulateSame(g, f, h, n - 1);
    }
  }
}
