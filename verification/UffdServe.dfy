/** Serving page faults from a flat memory layer. Pages the guest gave back come
    as zeros, the others as the snapshot has them; a fault is answered with its
    whole chunk, in runs of like pages. */
module UffdServe {
  import opened Wrappers
  import opened Arithmetic
  import opened Manifests
  import opened Layers
  import opened RemovedPages
  import opened UffdFill

  /** A restored guest: the geometry and the flat layer of its memory image, its
      page size, and where the image's parts are in the host's address space. */
  datatype Vm = Vm(g: Geometry, ps: Pos, regions: seq<Region>, layer: Layer)

  /** The page an address is in. */
  function PageStart(ps: Pos, addr: nat): (a: nat)
    ensures a % ps == 0
  {
    MulMod(addr / ps, ps);
    addr - addr % ps
  }

  predicate Contains(r: Region, a: nat) {
    r.base <= a < r.base + r.size
  }

  ghost predicate RegionOk(vm: Vm, r: Region) {
    && r.base % vm.ps == 0 && r.size % vm.ps == 0 && r.offset % vm.ps == 0
    && r.offset + r.size <= vm.g.size
  }

  ghost predicate Apart(r: Region, s: Region) {
    && (r.base + r.size <= s.base || s.base + s.size <= r.base)
    && (r.offset + r.size <= s.offset || s.offset + s.size <= r.offset)
  }

  /** Regions and chunks are made of whole pages, and the regions share neither
      host addresses nor parts of the image. */
  ghost predicate VmOk(vm: Vm) {
    && LayerOk(vm.g, vm.layer)
    && vm.g.chunkSize % vm.ps == 0 && vm.g.size % vm.ps == 0
    && (forall i :: 0 <= i < |vm.regions| ==> RegionOk(vm, vm.regions[i]))
    && (forall i, j :: 0 <= i < j < |vm.regions| ==> Apart(vm.regions[i], vm.regions[j]))
  }

  /** What the image says of a page that is missing: zeros if the guest gave it
      back, else the snapshot's bytes. */
  ghost function Owed(vm: Vm, marked: set<nat>, off: nat): seq<Byte>
    requires VmOk(vm) && off + vm.ps <= vm.g.size
  {
    if off / vm.ps in marked then Zeros(vm.ps) else View(vm.g, [vm.layer])[off..off + vm.ps]
  }

  /** The image bytes a fault at `off` in region `r` is answered with: its chunk,
      clipped to the region. */
  function RangeLo(vm: Vm, r: Region, off: nat): nat {
    var chunk := ChunkStart(vm.g, off);
    if chunk > r.offset then chunk else r.offset
  }

  function RangeHi(vm: Vm, r: Region, off: nat): nat {
    var chunk := ChunkStart(vm.g, off);
    if chunk + vm.g.chunkSize < r.offset + r.size then chunk + vm.g.chunkSize else r.offset + r.size
  }

  ghost predicate DataChunk(vm: Vm, off: nat) {
    IsData(Lookup(vm.layer.entries, ChunkStart(vm.g, off)))
  }

  function HostOf(r: Region, off: nat): nat
    requires off >= r.offset
  {
    r.base + (off - r.offset)
  }

  function ImageOf(r: Region, a: nat): nat
    requires a >= r.base
  {
    r.offset + (a - r.base)
  }

  /** Pages of region `r` whose image bytes are in [lo, hi) were added, as the
      image says; no other page changed. */
  ghost predicate Filled(vm: Vm, r: Region, lo: nat, hi: nat, marked: set<nat>,
                         before: map<nat, seq<Byte>>, after: map<nat, seq<Byte>>)
    requires VmOk(vm) && RegionOk(vm, r) && r.offset <= lo <= hi <= r.offset + r.size
  {
    && (forall a :: a in before ==> a in after && after[a] == before[a])
    && (forall a :: a in after && a !in before ==>
          InPages(vm.ps, HostOf(r, lo), HostOf(r, hi), a)
          && r.base <= a && ImageOf(r, a) + vm.ps <= vm.g.size
          && after[a] == Owed(vm, marked, ImageOf(r, a)))
  }

  /** All of those pages are present after. */
  ghost predicate Served(vm: Vm, r: Region, lo: nat, hi: nat, marked: set<nat>,
                         before: map<nat, seq<Byte>>, after: map<nat, seq<Byte>>)
    requires VmOk(vm) && RegionOk(vm, r) && r.offset <= lo <= hi <= r.offset + r.size
  {
    && Filled(vm, r, lo, hi, marked, before, after)
    && (forall a: nat :: InPages(vm.ps, HostOf(r, lo), HostOf(r, hi), a) ==> a in after)
  }

  // ---- alignment -----------------------------------------------------------------

  lemma DiffAligned(ps: Pos, a: nat, b: nat)
    requires a % ps == 0 && b % ps == 0 && b <= a
    ensures (a - b) % ps == 0
  {
    var i, j := a / ps, b / ps;
    DivExact(a, ps);
    DivExact(b, ps);
    MulLt(i, j, ps);
    MulSub(i, j, ps);
    MulMod(i - j, ps);
  }

  lemma MultipleOfMultiple(ps: Pos, n: Pos, k: nat)
    requires n % ps == 0 && k % n == 0
    ensures k % ps == 0
  {
    var i, j := n / ps, k / n;
    assert n == i * ps && k == j * n;
    assert k == (j * i) * ps;
    MulMod(j * i, ps);
  }

  lemma HostAligned(vm: Vm, r: Region, off: nat)
    requires VmOk(vm) && RegionOk(vm, r) && off >= r.offset && off % vm.ps == 0
    ensures HostOf(r, off) % vm.ps == 0
  {
    DiffAligned(vm.ps, off, r.offset);
    SumAligned(vm.ps, r.base, off - r.offset);
  }

  lemma ImageAligned(vm: Vm, r: Region, a: nat)
    requires VmOk(vm) && RegionOk(vm, r) && a >= r.base && a % vm.ps == 0
    ensures ImageOf(r, a) % vm.ps == 0
  {
    DiffAligned(vm.ps, a, r.base);
    SumAligned(vm.ps, r.offset, a - r.base);
  }

  lemma RangeAligned(vm: Vm, r: Region, off: nat)
    requires VmOk(vm) && RegionOk(vm, r) && r.offset <= off < r.offset + r.size && off % vm.ps == 0
    ensures RangeLo(vm, r, off) % vm.ps == 0 && RangeHi(vm, r, off) % vm.ps == 0
    ensures r.offset <= RangeLo(vm, r, off) <= off < RangeHi(vm, r, off) <= r.offset + r.size
    ensures ChunkOffset(vm.g, ChunkStart(vm.g, off)) && off + vm.ps <= RangeHi(vm, r, off)
    ensures ChunkStart(vm.g, off) <= RangeLo(vm, r, off)
    ensures RangeHi(vm, r, off) <= ChunkStart(vm.g, off) + ChunkLen(vm.g, ChunkStart(vm.g, off))
  {
    ChunkOfByte(vm.g, off);
    MultipleOfMultiple(vm.ps, vm.g.chunkSize, ChunkStart(vm.g, off));
    SumAligned(vm.ps, ChunkStart(vm.g, off), vm.g.chunkSize);
    SumAligned(vm.ps, r.offset, r.size);
    PageFits(vm.ps, off, RangeHi(vm, r, off));
  }

  // ---- one run of like pages ------------------------------------------------------------

  lemma ViewInChunk(vm: Vm, chunk: nat, off: nat)
    requires VmOk(vm) && ChunkOffset(vm.g, chunk)
    requires chunk <= off && off + vm.ps <= chunk + ChunkLen(vm.g, chunk)
    ensures View(vm.g, [vm.layer])[off..off + vm.ps] ==
            ViewChunk(vm.g, [vm.layer], chunk)[off - chunk..off - chunk + vm.ps]
  {
    ViewSlice(vm.g, [vm.layer], chunk);
    var view := View(vm.g, [vm.layer]);
    assert Slice(vm.g, view, chunk)[off - chunk..off - chunk + vm.ps] == view[off..off + vm.ps];
  }

  lemma FlatChunk(vm: Vm, chunk: nat)
    requires VmOk(vm) && ChunkOffset(vm.g, chunk)
    ensures ViewChunk(vm.g, [vm.layer], chunk) == ChunkBytes(vm.g, Lookup(vm.layer.entries, chunk), chunk)
  {
    assert [vm.layer][..0] == [];
    assert Resolved([vm.layer][..0], chunk) == None;
  }

  lemma SliceOfSlice(s: seq<Byte>, a: nat, b: nat, c: nat, d: nat)
    requires a <= b <= |s| && c <= d <= b - a
    ensures s[a..b][c..d] == s[a + c..a + d]
  {
    var l, r := s[a..b][c..d], s[a + c..a + d];
    assert |l| == |r| && forall i :: 0 <= i < |l| ==> l[i] == r[i];
  }

  lemma SnapshotPage(vm: Vm, chunk: nat, pos: nat, end: nat, off: nat)
    requires VmOk(vm) && ChunkOffset(vm.g, chunk)
    requires chunk <= pos <= off && off + vm.ps <= end <= chunk + ChunkLen(vm.g, chunk)
    ensures ViewChunk(vm.g, [vm.layer], chunk)[pos - chunk..end - chunk][off - pos..off - pos + vm.ps] ==
            View(vm.g, [vm.layer])[off..off + vm.ps]
  {
    ViewInChunk(vm, chunk, off);
    SliceOfSlice(ViewChunk(vm.g, [vm.layer], chunk), pos - chunk, end - chunk, off - pos, off - pos + vm.ps);
  }

  lemma PageFromSnapshot(vm: Vm, r: Region, chunk: nat, pos: nat, end: nat, marked: set<nat>, src: seq<Byte>, a: nat)
    requires VmOk(vm) && ChunkOffset(vm.g, chunk) && chunk <= pos && end <= chunk + ChunkLen(vm.g, chunk)
    requires r.offset <= pos && r.base <= a && pos <= ImageOf(r, a) && ImageOf(r, a) + vm.ps <= end
    requires a - HostOf(r, pos) == ImageOf(r, a) - pos && ImageOf(r, a) / vm.ps !in marked
    requires src == ViewChunk(vm.g, [vm.layer], chunk)[pos - chunk..end - chunk]
    ensures SourcePage(vm.ps, Some(src), HostOf(r, pos), a) == Owed(vm, marked, ImageOf(r, a))
  {
    SnapshotPage(vm, chunk, pos, end, ImageOf(r, a));
  }

  lemma ZeroPage(vm: Vm, chunk: nat, off: nat)
    requires VmOk(vm) && ChunkOffset(vm.g, chunk) && !IsData(Lookup(vm.layer.entries, chunk))
    requires chunk <= off && off + vm.ps <= chunk + ChunkLen(vm.g, chunk)
    ensures View(vm.g, [vm.layer])[off..off + vm.ps] == Zeros(vm.ps)
  {
    ViewInChunk(vm, chunk, off);
    FlatChunk(vm, chunk);
  }

  lemma PageOfZeros(vm: Vm, r: Region, chunk: nat, pos: nat, end: nat, marked: set<nat>, a: nat)
    requires VmOk(vm) && ChunkOffset(vm.g, chunk) && chunk <= pos && end <= chunk + ChunkLen(vm.g, chunk)
    requires r.offset <= pos && r.base <= a && pos <= ImageOf(r, a) && ImageOf(r, a) + vm.ps <= end
    requires !IsData(Lookup(vm.layer.entries, chunk)) || ImageOf(r, a) / vm.ps in marked
    ensures SourcePage(vm.ps, None, HostOf(r, pos), a) == Owed(vm, marked, ImageOf(r, a))
  {
    if ImageOf(r, a) / vm.ps !in marked {
      ZeroPage(vm, chunk, ImageOf(r, a));
    }
  }

  lemma PageNumber(ps: Pos, pos: nat, off: nat, end: nat)
    requires pos % ps == 0 && off % ps == 0 && end % ps == 0 && pos <= off < end
    ensures pos / ps <= off / ps < end / ps
  {
    assert pos == (pos / ps) * ps && off == (off / ps) * ps && end == (end / ps) * ps;
    MulLt(off / ps, pos / ps, ps);
    MulLt(off / ps, end / ps, ps);
  }

  lemma PageInRun(vm: Vm, r: Region, pos: nat, end: nat, a: nat)
    requires VmOk(vm) && RegionOk(vm, r)
    requires r.offset <= pos <= end <= r.offset + r.size && pos % vm.ps == 0 && end % vm.ps == 0
    requires InPages(vm.ps, HostOf(r, pos), HostOf(r, end), a)
    ensures r.base <= a && pos <= ImageOf(r, a) && ImageOf(r, a) + vm.ps <= end
    ensures a - HostOf(r, pos) == ImageOf(r, a) - pos
    ensures pos / vm.ps <= ImageOf(r, a) / vm.ps < end / vm.ps
  {
    var off := ImageOf(r, a);
    ImageAligned(vm, r, a);
    PageFits(vm.ps, off, end);
    PageNumber(vm.ps, pos, off, end);
  }

  lemma PageServes(vm: Vm, r: Region, chunk: nat, pos: nat, end: nat, marked: set<nat>, src: Option<seq<Byte>>, a: nat)
    requires VmOk(vm) && RegionOk(vm, r) && ChunkOffset(vm.g, chunk)
    requires r.offset <= pos <= end <= r.offset + r.size && pos % vm.ps == 0 && end % vm.ps == 0
    requires chunk <= pos && end <= chunk + ChunkLen(vm.g, chunk)
    requires InPages(vm.ps, HostOf(r, pos), HostOf(r, end), a)
    requires src.Some? ==> src.value == ViewChunk(vm.g, [vm.layer], chunk)[pos - chunk..end - chunk]
    requires src.Some? ==> forall p: nat :: pos / vm.ps <= p < end / vm.ps ==> p !in marked
    requires src.None? ==> !IsData(Lookup(vm.layer.entries, chunk))
                           || forall p: nat :: pos / vm.ps <= p < end / vm.ps ==> p in marked
    ensures r.base <= a && ImageOf(r, a) + vm.ps <= end
    ensures SourcePage(vm.ps, src, HostOf(r, pos), a) == Owed(vm, marked, ImageOf(r, a))
  {
    PageInRun(vm, r, pos, end, a);
    if src.Some? {
      PageFromSnapshot(vm, r, chunk, pos, end, marked, src.value, a);
    } else {
      PageOfZeros(vm, r, chunk, pos, end, marked, a);
    }
  }

  /** What a fill of [pos, end) with the snapshot's bytes, or zeros, adds is what
      the image owes. */
  lemma RunFills(vm: Vm, r: Region, chunk: nat, pos: nat, end: nat, marked: set<nat>, src: Option<seq<Byte>>,
                 before: map<nat, seq<Byte>>, after: map<nat, seq<Byte>>)
    requires VmOk(vm) && RegionOk(vm, r) && ChunkOffset(vm.g, chunk)
    requires r.offset <= pos <= end <= r.offset + r.size && pos % vm.ps == 0 && end % vm.ps == 0
    requires chunk <= pos && end <= chunk + ChunkLen(vm.g, chunk)
    requires Added(vm.ps, src, HostOf(r, pos), HostOf(r, pos), HostOf(r, end), before, after)
    requires src.Some? ==> src.value == ViewChunk(vm.g, [vm.layer], chunk)[pos - chunk..end - chunk]
    requires src.Some? ==> forall p: nat :: pos / vm.ps <= p < end / vm.ps ==> p !in marked
    requires src.None? ==> !IsData(Lookup(vm.layer.entries, chunk))
                           || forall p: nat :: pos / vm.ps <= p < end / vm.ps ==> p in marked
    ensures Filled(vm, r, pos, end, marked, before, after)
  {
    forall a: nat | a in after && a !in before
      ensures r.base <= a && ImageOf(r, a) + vm.ps <= end && after[a] == Owed(vm, marked, ImageOf(r, a))
    {
      assert InPages(vm.ps, HostOf(r, pos), HostOf(r, end), a);
      PageServes(vm, r, chunk, pos, end, marked, src, a);
    }
  }

  lemma DivOrder(ps: Pos, a: nat, b: nat)
    requires a <= b
    ensures a / ps <= b / ps
  {
    if b / ps < a / ps {
      MulStep(b / ps, ps);
      MulLe(b / ps + 1, a / ps, ps);
    }
  }

  lemma FilledTwice(vm: Vm, r: Region, lo: nat, mid: nat, hi: nat, marked: set<nat>, marked': set<nat>,
                    a: map<nat, seq<Byte>>, b: map<nat, seq<Byte>>, c: map<nat, seq<Byte>>)
    requires VmOk(vm) && RegionOk(vm, r) && r.offset <= lo <= mid <= hi <= r.offset + r.size
    requires mid % vm.ps == 0
    requires forall p: nat :: p >= mid / vm.ps ==> (p in marked' <==> p in marked)
    requires Filled(vm, r, lo, mid, marked, a, b) && Filled(vm, r, mid, hi, marked', b, c)
    ensures Filled(vm, r, lo, hi, marked, a, c)
  {
    forall x: nat | x in c && x !in a
      ensures InPages(vm.ps, HostOf(r, lo), HostOf(r, hi), x) && r.base <= x && ImageOf(r, x) + vm.ps <= vm.g.size
              && c[x] == Owed(vm, marked, ImageOf(r, x))
    {
      if x in b {
        assert c[x] == b[x];
      } else {
        ImageAligned(vm, r, x);
        HostAligned(vm, r, mid);
        DivOrder(vm.ps, mid, ImageOf(r, x));
      }
    }
  }

  lemma FilledWithin(vm: Vm, r: Region, lo: nat, end: nat, hi: nat, marked: set<nat>,
                     a: map<nat, seq<Byte>>, b: map<nat, seq<Byte>>)
    requires VmOk(vm) && RegionOk(vm, r) && r.offset <= lo <= end <= hi <= r.offset + r.size
    requires Filled(vm, r, lo, end, marked, a, b)
    ensures Filled(vm, r, lo, hi, marked, a, b)
  {
    assert forall x :: InPages(vm.ps, HostOf(r, lo), HostOf(r, end), x) ==>
             InPages(vm.ps, HostOf(r, lo), HostOf(r, hi), x);
  }

  lemma ServedTwice(vm: Vm, r: Region, lo: nat, mid: nat, hi: nat, marked: set<nat>, marked': set<nat>,
                    a: map<nat, seq<Byte>>, b: map<nat, seq<Byte>>, c: map<nat, seq<Byte>>)
    requires VmOk(vm) && RegionOk(vm, r) && r.offset <= lo <= mid <= hi <= r.offset + r.size
    requires Served(vm, r, lo, mid, marked, a, b) && Served(vm, r, mid, hi, marked', b, c)
    requires Filled(vm, r, lo, hi, marked, a, c)
    ensures Served(vm, r, lo, hi, marked, a, c)
  {
    forall x: nat | InPages(vm.ps, HostOf(r, lo), HostOf(r, hi), x) ensures x in c {
      assert InPages(vm.ps, HostOf(r, lo), HostOf(r, mid), x) || InPages(vm.ps, HostOf(r, mid), HostOf(r, hi), x);
    }
  }

  // ---- the fault ---------------------------------------------------------------------------

  method FindRegion(regions: seq<Region>, a: nat) returns (r: Option<nat>)
    ensures r.Some? ==> r.value < |regions| && Contains(regions[r.value], a)
    ensures r.None? ==> forall i :: 0 <= i < |regions| ==> !Contains(regions[i], a)
  {
    var k := 0;
    while k < |regions|
      invariant 0 <= k <= |regions|
      invariant forall i :: 0 <= i < k ==> !Contains(regions[i], a)
    {
      if Contains(regions[k], a) { return Some(k); }
      k := k + 1;
    }
    return None;
  }

  lemma NextNumber(ps: Pos, pos: nat)
    requires pos % ps == 0
    ensures (pos + ps) / ps == pos / ps + 1
  {
    assert pos == (pos / ps) * ps;
    MulStep(pos / ps, ps);
    MulMod(pos / ps + 1, ps);
  }

  /** Where a run of pages that are all given back, or all not, ends. */
  method RunEnd(vm: Vm, removed: Bitmap, pos: nat, hi: nat, freed: bool) returns (end: nat)
    requires removed.Valid() && removed.pageSize == vm.ps
    requires pos < hi && pos % vm.ps == 0 && hi % vm.ps == 0
    requires freed <==> pos / vm.ps in removed.marked
    ensures pos < end <= hi && end % vm.ps == 0
    ensures forall p: nat :: pos / vm.ps <= p < end / vm.ps ==> (p in removed.marked <==> freed)
  {
    PageFits(vm.ps, pos, hi);
    end := pos + vm.ps;
    ghost var q := pos / vm.ps;
    NextNumber(vm.ps, pos);
    var same := true;
    while same && end < hi
      invariant pos < end <= hi && end % vm.ps == 0
      invariant forall p: nat :: pos / vm.ps <= p < end / vm.ps ==> (p in removed.marked <==> freed)
      decreases hi - end, same
    {
      var here := removed.IsSet(end);
      if here == freed {
        PageFits(vm.ps, end, hi);
        NextNumber(vm.ps, end);
        end := end + vm.ps;
      } else {
        same := false;
      }
    }
  }

  lemma NumberInRange(ps: Pos, lo: nat, hi: nat, off: nat)
    requires lo % ps == 0 && hi % ps == 0 && off % ps == 0 && lo <= hi
    ensures lo / ps <= off / ps < hi / ps <==> lo <= off < hi
  {
    DivExact(lo, ps);
    DivExact(hi, ps);
    DivExact(off, ps);
    MulLt(off / ps, lo / ps, ps);
    MulLt(off / ps, hi / ps, ps);
  }

  /** The marks of the pages from `lo` to `hi` are gone, no others. */
  ghost predicate ClearedBetween(ps: Pos, lo: nat, hi: nat, before: set<nat>, after: set<nat>) {
    forall p: nat :: p in after <==> p in before && !(lo / ps <= p < hi / ps)
  }

  /** Marks of pages from `lo` to `hi` may be gone, no others. */
  ghost predicate ClearedWithin(ps: Pos, lo: nat, hi: nat, before: set<nat>, after: set<nat>) {
    after <= before && forall p: nat :: p in before && p !in after ==> lo / ps <= p < hi / ps
  }

  /** A page whose mark is gone is there. */
  ghost predicate ClearedPresent(vm: Vm, r: Region, before: set<nat>, after: set<nat>, pages: set<nat>) {
    forall a: nat :: Contains(r, a) && a % vm.ps == 0 && ImageOf(r, a) / vm.ps in before ==>
      ImageOf(r, a) / vm.ps in after || a in pages
  }

  lemma ServedCleared(vm: Vm, r: Region, lo: nat, pos: nat, marked: set<nat>, marked': set<nat>,
                      before: map<nat, seq<Byte>>, after: map<nat, seq<Byte>>)
    requires VmOk(vm) && RegionOk(vm, r) && r.offset <= lo <= pos <= r.offset + r.size
    requires lo % vm.ps == 0 && pos % vm.ps == 0
    requires Served(vm, r, lo, pos, marked, before, after) && ClearedBetween(vm.ps, lo, pos, marked, marked')
    ensures ClearedPresent(vm, r, marked, marked', after.Keys)
  {
    forall a: nat | Contains(r, a) && a % vm.ps == 0 && ImageOf(r, a) / vm.ps in marked
                    && ImageOf(r, a) / vm.ps !in marked'
      ensures a in after
    {
      ImageAligned(vm, r, a);
      NumberInRange(vm.ps, lo, pos, ImageOf(r, a));
      assert InPages(vm.ps, HostOf(r, lo), HostOf(r, pos), a);
    }
  }

  lemma RunOrder(ps: Pos, lo: nat, pos: nat, end: nat)
    requires lo <= pos <= end
    ensures lo / ps <= pos / ps <= end / ps
  {
    DivOrder(ps, lo, pos);
    DivOrder(ps, pos, end);
  }

  /** A fill fails only if the guest's kernel fails it, and says that the guest is
      gone only if the kernel does. */
  predicate FailsAs(mem: Memory, e: Option<FaultErr>) {
    (mem.Reliable() ==> e.None?) && (e == Some(Gone) ==> ESRCH in mem.refusals)
  }

  method ServeRun(vm: Vm, mem: Memory, r: Region, chunk: nat, raw: seq<Byte>, pos: nat, end: nat, freed: bool,
                  ghost marked: set<nat>)
    returns (e: Option<FaultErr>)
    requires VmOk(vm) && RegionOk(vm, r) && ChunkOffset(vm.g, chunk) && mem.ps == vm.ps
    requires r.offset <= pos < end <= r.offset + r.size && pos % vm.ps == 0 && end % vm.ps == 0
    requires chunk <= pos && end <= chunk + ChunkLen(vm.g, chunk)
    requires raw == ViewChunk(vm.g, [vm.layer], chunk)
    requires forall p: nat :: pos / vm.ps <= p < end / vm.ps ==> (p in marked <==> freed)
    modifies mem
    ensures Filled(vm, r, pos, end, marked, old(mem.pages), mem.pages)
    ensures WokenRight(vm.ps, HostOf(r, pos), HostOf(r, end), old(mem.waiting), mem.waiting, mem.pages.Keys)
    ensures e.None? ==> Served(vm, r, pos, end, marked, old(mem.pages), mem.pages)
    ensures e.None? ==> NoneIn(vm.ps, HostOf(r, pos), HostOf(r, end), mem.waiting)
    ensures FailsAs(mem, e)
  {
    HostAligned(vm, r, pos);
    DiffAligned(vm.ps, end, pos);
    var src := if freed then None else Some(raw[pos - chunk..end - chunk]);
    ghost var spent;
    e, spent := mem.Fill(src, HostOf(r, pos), end - pos);
    RunFills(vm, r, chunk, pos, end, marked, src, old(mem.pages), mem.pages);
  }

  /** A data chunk's pages, run by run. */
  method ServeRuns(vm: Vm, mem: Memory, removed: Bitmap, r: Region, chunk: nat, raw: seq<Byte>, lo: nat, hi: nat)
    returns (e: Option<FaultErr>)
    requires VmOk(vm) && RegionOk(vm, r) && ChunkOffset(vm.g, chunk) && mem.ps == vm.ps
    requires removed.Valid() && removed.pageSize == vm.ps
    requires r.offset <= lo <= hi <= r.offset + r.size && lo % vm.ps == 0 && hi % vm.ps == 0
    requires chunk <= lo && hi <= chunk + ChunkLen(vm.g, chunk)
    requires raw == ViewChunk(vm.g, [vm.layer], chunk)
    modifies mem, removed`marked, removed.bits
    ensures removed.Valid() && ClearedWithin(vm.ps, lo, hi, old(removed.marked), removed.marked)
    ensures ClearedPresent(vm, r, old(removed.marked), removed.marked, mem.pages.Keys)
    ensures Filled(vm, r, lo, hi, old(removed.marked), old(mem.pages), mem.pages)
    ensures WokenRight(vm.ps, HostOf(r, lo), HostOf(r, hi), old(mem.waiting), mem.waiting, mem.pages.Keys)
    ensures e.None? ==> Served(vm, r, lo, hi, old(removed.marked), old(mem.pages), mem.pages)
    ensures e.None? ==> ClearedBetween(vm.ps, lo, hi, old(removed.marked), removed.marked)
    ensures e.None? ==> NoneIn(vm.ps, HostOf(r, lo), HostOf(r, hi), mem.waiting)
    ensures FailsAs(mem, e)
  {
    var pos := lo;
    while pos < hi
      invariant lo <= pos <= hi && pos % vm.ps == 0
      invariant removed.Valid()
      invariant Served(vm, r, lo, pos, old(removed.marked), old(mem.pages), mem.pages)
      invariant ClearedBetween(vm.ps, lo, pos, old(removed.marked), removed.marked)
      invariant WokenRight(vm.ps, HostOf(r, lo), HostOf(r, pos), old(mem.waiting), mem.waiting, mem.pages.Keys)
      invariant NoneIn(vm.ps, HostOf(r, lo), HostOf(r, pos), mem.waiting)
      decreases hi - pos
    {
      ghost var before, marked, waiting := mem.pages, removed.marked, mem.waiting;
      ServedCleared(vm, r, lo, pos, old(removed.marked), marked, old(mem.pages), before);
      var freed := removed.IsSet(pos);
      var end := RunEnd(vm, removed, pos, hi, freed);
      HostAligned(vm, r, pos);
      DiffAligned(vm.ps, end, pos);
      e := ServeRun(vm, mem, r, chunk, raw, pos, end, freed, marked);
      RunOrder(vm.ps, lo, pos, end);
      RunOrder(vm.ps, pos, end, hi);
      assert forall p: nat :: p >= pos / vm.ps ==> (p in marked <==> p in old(removed.marked));
      FilledTwice(vm, r, lo, pos, end, old(removed.marked), marked, old(mem.pages), before, mem.pages);
      FilledWithin(vm, r, lo, end, hi, old(removed.marked), old(mem.pages), mem.pages);
      WokenTwice(vm.ps, HostOf(r, lo), HostOf(r, pos), HostOf(r, end), old(mem.waiting), waiting, mem.waiting,
                 before.Keys, mem.pages.Keys);
      WokenWithin(vm.ps, HostOf(r, lo), HostOf(r, end), HostOf(r, hi), old(mem.waiting), mem.waiting, mem.pages.Keys);
      if e.Some? { return; }
      if freed {
        removed.Clear(pos, end);
        AlignedVisits(vm.ps, pos, end);
      }
      ServedTwice(vm, r, lo, pos, end, old(removed.marked), marked, old(mem.pages), before, mem.pages);
      NoneInJoin(vm.ps, HostOf(r, lo), HostOf(r, pos), HostOf(r, end), mem.waiting);
      pos := end;
    }
    ServedCleared(vm, r, lo, hi, old(removed.marked), removed.marked, old(mem.pages), mem.pages);
    e := None;
  }

  /** What a fault, answered or not, leaves of its chunk's pages, of their marks
      and of those who wait. */
  ghost predicate PageFilled(vm: Vm, r: Region, off: nat, marked: set<nat>, before: map<nat, seq<Byte>>, w0: set<nat>,
                             marked': set<nat>, after: map<nat, seq<Byte>>, w: set<nat>)
    requires VmOk(vm) && RegionOk(vm, r)
  {
    var lo, hi := RangeLo(vm, r, off), RangeHi(vm, r, off);
    && r.offset <= lo <= off < hi <= r.offset + r.size
    && Filled(vm, r, lo, hi, marked, before, after)
    && ClearedWithin(vm.ps, lo, hi, marked, marked') && ClearedPresent(vm, r, marked, marked', after.Keys)
    && WokenRight(vm.ps, HostOf(r, lo), HostOf(r, hi), w0, w, after.Keys)
  }

  /** What an answered one does besides: all those pages are present, nobody waits
      for one, and the marks of a data chunk's are gone. */
  ghost predicate PageServed(vm: Vm, r: Region, off: nat, marked: set<nat>, before: map<nat, seq<Byte>>,
                             marked': set<nat>, after: map<nat, seq<Byte>>, w: set<nat>)
    requires VmOk(vm) && RegionOk(vm, r)
  {
    var lo, hi := RangeLo(vm, r, off), RangeHi(vm, r, off);
    && r.offset <= lo <= off < hi <= r.offset + r.size
    && Served(vm, r, lo, hi, marked, before, after)
    && NoneIn(vm.ps, HostOf(r, lo), HostOf(r, hi), w)
    && (if DataChunk(vm, off) then ClearedBetween(vm.ps, lo, hi, marked, marked') else marked' == marked)
  }

  /** A fault at `page` in region `k`, whatever becomes of it, fills pages of the
      chunk and region, each as the image owes it. */
  ghost predicate FaultFilled(vm: Vm, k: nat, page: nat, marked: set<nat>, before: map<nat, seq<Byte>>, w0: set<nat>,
                              marked': set<nat>, after: map<nat, seq<Byte>>, w: set<nat>)
    requires VmOk(vm)
  {
    k < |vm.regions| && Contains(vm.regions[k], page)
    && PageFilled(vm, vm.regions[k], ImageOf(vm.regions[k], page), marked, before, w0, marked', after, w)
  }

  /** It is answered: the page is present, with every other page of its chunk and
      region, and nobody waits for one of them. */
  ghost predicate FaultServed(vm: Vm, k: nat, page: nat, marked: set<nat>, before: map<nat, seq<Byte>>, w0: set<nat>,
                              marked': set<nat>, after: map<nat, seq<Byte>>, w: set<nat>)
    requires VmOk(vm)
  {
    && FaultFilled(vm, k, page, marked, before, w0, marked', after, w)
    && PageServed(vm, vm.regions[k], ImageOf(vm.regions[k], page), marked, before, marked', after, w)
  }

  /** A chunk without data: zeros, without a look at the marks. */
  method ServeZeros(vm: Vm, mem: Memory, r: Region, chunk: nat, lo: nat, hi: nat, ghost marked: set<nat>)
    returns (e: Option<FaultErr>)
    requires VmOk(vm) && mem.ps == vm.ps && RegionOk(vm, r) && ChunkOffset(vm.g, chunk)
    requires r.offset <= lo <= hi <= r.offset + r.size && lo % vm.ps == 0 && hi % vm.ps == 0
    requires chunk <= lo && hi <= chunk + ChunkLen(vm.g, chunk)
    requires !IsData(Lookup(vm.layer.entries, chunk))
    modifies mem
    ensures Filled(vm, r, lo, hi, marked, old(mem.pages), mem.pages)
    ensures WokenRight(vm.ps, HostOf(r, lo), HostOf(r, hi), old(mem.waiting), mem.waiting, mem.pages.Keys)
    ensures e.None? ==> Served(vm, r, lo, hi, marked, old(mem.pages), mem.pages)
    ensures e.None? ==> NoneIn(vm.ps, HostOf(r, lo), HostOf(r, hi), mem.waiting)
    ensures FailsAs(mem, e)
  {
    HostAligned(vm, r, lo);
    DiffAligned(vm.ps, hi, lo);
    ghost var spent;
    e, spent := mem.Fill(None, HostOf(r, lo), hi - lo);
    RunFills(vm, r, chunk, lo, hi, marked, None, old(mem.pages), mem.pages);
  }

  /** The part of a fault that knows its region. With `mayMiss` the chunk may be out of
      reach. */
  method ServePage(vm: Vm, mem: Memory, removed: Bitmap, r: Region, page: nat, mayMiss: bool)
    returns (e: Option<FaultErr>)
    requires VmOk(vm) && mem.ps == vm.ps && removed.Valid() && removed.pageSize == vm.ps
    requires RegionOk(vm, r) && Contains(r, page) && page % vm.ps == 0
    modifies mem, removed`marked, removed.bits
    ensures removed.Valid()
    ensures PageFilled(vm, r, ImageOf(r, page), old(removed.marked), old(mem.pages), old(mem.waiting),
                       removed.marked, mem.pages, mem.waiting)
    ensures e.None? ==>
              PageServed(vm, r, ImageOf(r, page), old(removed.marked), old(mem.pages), removed.marked, mem.pages,
                         mem.waiting)
    ensures e == Some(Gone) ==> ESRCH in mem.refusals
    ensures mem.Reliable() && (!mayMiss || !DataChunk(vm, ImageOf(r, page))) ==> e.None?
  {
    var off := ImageOf(r, page);
    ImageAligned(vm, r, page);
    RangeAligned(vm, r, off);
    var chunk := ChunkStart(vm.g, off);
    var lo, hi := RangeLo(vm, r, off), RangeHi(vm, r, off);
    FlatChunk(vm, chunk);
    LookupOk(vm.g, vm.layer, chunk);
    var entry := EntryAt(vm.layer, chunk);
    if entry.None? || !entry.value.kind.Data? {
      e := ServeZeros(vm, mem, r, chunk, lo, hi, removed.marked);
      return;
    }
    var fetched: bool := *;
    if mayMiss && !fetched { return Some(Fatal); }
    e := ServeRuns(vm, mem, removed, r, chunk, entry.value.hash.preimage, lo, hi);
  }

  /** Answers the fault at `addr`; everybody who waited for a page of the answer
      is woken, and nobody before the page is there. A fault outside the guest's
      memory is fatal. */
  method ServeFault(vm: Vm, mem: Memory, removed: Bitmap, addr: nat, mayMiss: bool)
    returns (e: Option<FaultErr>, ghost k: nat)
    requires VmOk(vm) && mem.ps == vm.ps && removed.Valid() && removed.pageSize == vm.ps
    modifies mem, removed`marked, removed.bits
    ensures removed.Valid()
    ensures (forall i :: 0 <= i < |vm.regions| ==> !Contains(vm.regions[i], PageStart(vm.ps, addr))) ==>
              e == Some(Fatal)
    ensures if exists i :: 0 <= i < |vm.regions| && Contains(vm.regions[i], PageStart(vm.ps, addr)) then
              FaultFilled(vm, k, PageStart(vm.ps, addr), old(removed.marked), old(mem.pages), old(mem.waiting),
                          removed.marked, mem.pages, mem.waiting)
            else
              mem.pages == old(mem.pages) && removed.marked == old(removed.marked) && mem.waiting == old(mem.waiting)
    ensures e.None? ==>
              FaultServed(vm, k, PageStart(vm.ps, addr), old(removed.marked), old(mem.pages), old(mem.waiting),
                          removed.marked, mem.pages, mem.waiting)
    ensures e == Some(Gone) ==> ESRCH in mem.refusals
    ensures mem.Reliable() && !mayMiss ==>
              (e.None? <==> exists i :: 0 <= i < |vm.regions| && Contains(vm.regions[i], PageStart(vm.ps, addr)))
  {
    k := 0;
    var page := PageStart(vm.ps, addr);
    var found := FindRegion(vm.regions, page);
    if found.None? { return Some(Fatal), 0; }
    k := found.value;
    e := ServePage(vm, mem, removed, vm.regions[found.value], page, mayMiss);
  }
}
