/** Which chunks a node pins: those only it may have. */
module Pins {
  import opened Manifests
  import opened Layers
  import DiskRuns
  import opened CacheBudget
  import CacheRuns

  /** A disk's row in the node's state file. */
  datatype Row = Row(chain: seq<Layer>, sharedDepth: nat)

  /** The node's rows, the disks no head names the newest layer of, the layers it
      knows to be in the bucket and those it has the manifest of. */
  datatype Shelf = Shelf(rows: map<string, Row>, unheaded: set<string>, uploaded: set<Layer>, present: set<Layer>)

  predicate HasData(m: Layer, h: Digest) {
    exists i :: 0 <= i < |m.entries| && m.entries[i].kind == Data && m.entries[i].hash == h
  }

  /** The disk's layer at `i` is its own and no head names it, or it is not in the
      bucket for all the node knows. */
  predicate NodeOnly(s: Shelf, disk: string, i: nat) {
    disk in s.rows && i < |s.rows[disk].chain|
    && ((disk in s.unheaded && i >= s.rows[disk].sharedDepth) || s.rows[disk].chain[i] !in s.uploaded)
  }

  ghost predicate NodeOnlyLayer(s: Shelf, m: Layer) {
    exists disk: string, i: nat :: NodeOnly(s, disk, i) && s.rows[disk].chain[i] == m
  }

  /** The layers of one row. */
  method RowLayers(s: Shelf, disk: string) returns (layers: set<Layer>)
    requires disk in s.rows
    ensures forall m :: m in layers <==> exists i: nat :: NodeOnly(s, disk, i) && s.rows[disk].chain[i] == m
  {
    layers := {};
    var row := s.rows[disk];
    for n := 0 to |row.chain|
      invariant forall m :: m in layers <==> exists i: nat :: i < n && NodeOnly(s, disk, i) && row.chain[i] == m
    {
      var own := n >= row.sharedDepth;
      if (disk in s.unheaded && own) || row.chain[n] !in s.uploaded {
        assert NodeOnly(s, disk, n);
        layers := layers + {row.chain[n]};
      }
    }
  }

  /** The data chunks of one layer. */
  method DataChunks(m: Layer) returns (hashes: set<Digest>)
    ensures forall h :: h in hashes <==> HasData(m, h)
  {
    hashes := {};
    for n := 0 to |m.entries|
      invariant forall h :: h in hashes <==>
                  exists i :: 0 <= i < n && m.entries[i].kind == Data && m.entries[i].hash == h
    {
      if m.entries[n].kind == Data { hashes := hashes + {m.entries[n].hash}; }
    }
  }

  /** A data chunk of a layer only the node may have, whose manifest is there. */
  ghost predicate Pinned(s: Shelf, h: Digest) {
    exists m :: NodeOnlyLayer(s, m) && m in s.present && HasData(m, h)
  }

  ghost predicate PinsOf(s: Shelf, keep: set<Digest>) {
    forall h :: h in keep <==> Pinned(s, h)
  }

  /** Pinned are exactly the data chunks of the layers only the node may have; a
      layer whose manifest is gone is skipped. */
  method PinnedRowChunks(s: Shelf) returns (keep: set<Digest>)
    ensures PinsOf(s, keep)
  {
    var layers: set<Layer> := {};
    var disks := s.rows.Keys;
    while disks != {}
      invariant disks <= s.rows.Keys
      invariant forall m :: m in layers <==>
                  exists disk: string, i: nat :: disk !in disks && NodeOnly(s, disk, i) && s.rows[disk].chain[i] == m
      decreases disks
    {
      var disk :| disk in disks;
      var more := RowLayers(s, disk);
      layers := layers + more;
      disks := disks - {disk};
    }
    keep := {};
    ghost var all := layers;
    assert forall m :: m in all <==> NodeOnlyLayer(s, m);
    while layers != {}
      invariant layers <= all
      invariant forall h :: h in keep <==> exists m :: m in all && m !in layers && m in s.present && HasData(m, h)
      decreases layers
    {
      var m :| m in layers;
      if m in s.present {
        var hashes := DataChunks(m);
        keep := keep + hashes;
      }
      layers := layers - {m};
    }
  }

  /** The row of a disk. */
  ghost predicate RowOf(s: Shelf, disk: string, d: DiskRuns.Disk) {
    disk in s.rows && s.rows[disk] == Row(d.chain, d.sharedDepth) && d.layers <= s.present
  }

  /** A seal marks its disk unheaded first. From the commit of its row on, the
      layer it makes is one of those that are pinned, uploaded or not. */
  lemma SealedLayerIsPinned(g: Geometry, d: DiskRuns.Disk, n: nat, s: Shelf, disk: string)
    requires DiskRuns.Inv(g, d) && d.top.Some? && n >= 2
    requires RowOf(s, disk, DiskRuns.SealSteps(g, d, n)) && disk in s.unheaded
    ensures NodeOnlyLayer(s, DiskRuns.NewLayer(g, d)) && DiskRuns.NewLayer(g, d) in s.present
  {
    var e := DiskRuns.SealSteps(g, d, n);
    assert NodeOnly(s, disk, d.sharedDepth) && e.chain[d.sharedDepth] == DiskRuns.NewLayer(g, d);
    DiskRuns.SealCrashSafe(g, d, n);
  }

  /** After a seal's commit the pins are computed and sent, then its hold is
      dropped: every chunk of the new layer it has admitted is secure. */
  lemma SealedChunkIsSecure(g: Geometry, d: DiskRuns.Disk, n: nat, s: Shelf, disk: string, keep: set<Digest>,
                            w: CacheRuns.World, w': CacheRuns.World, t: nat, j: nat)
    requires DiskRuns.Inv(g, d) && d.top.Some? && n >= 2
    requires RowOf(s, disk, DiskRuns.SealSteps(g, d, n)) && disk in s.unheaded
    requires PinsOf(s, keep)
    requires CacheRuns.Inv(w) && CacheRuns.StepTo(w, CacheRuns.Send(Pin(keep)), w')
    requires t in w.batches && w.batches[t].live
    requires j < |w.batches[t].chunks| && CacheRuns.DoneWith(w.batches[t], j)
    requires HasData(DiskRuns.NewLayer(g, d), w.batches[t].chunks[j].0)
    requires forall k :: 0 <= k < |w.queue| ==> w.queue[k] != Release(w.batches[t].hold.value)
    ensures CacheRuns.Secure(w', w.batches[t].chunks[j].0, w.batches[t].hold.value)
  {
    SealedLayerIsPinned(g, d, n, s, disk);
    assert Pinned(s, w.batches[t].chunks[j].0);
    CacheRuns.PinBeforeReleaseSecures(w, keep, w', t, j);
  }

  /** The node's state while a disk is sealed, after some of the commit steps. */
  ghost predicate Sealing(g: Geometry, d: DiskRuns.Disk, s: Shelf, disk: string, n: nat)
    requires DiskRuns.Inv(g, d)
  {
    RowOf(s, disk, DiskRuns.SealSteps(g, d, n)) && disk in s.unheaded
  }

  /** A chunk that the replaced layer and the new one both have is pinned at every
      point of the seal: by the one before the row's commit, by the other from
      then on. */
  lemma MergedChunkIsPinned(g: Geometry, d: DiskRuns.Disk, n: nat, s: Shelf, disk: string, h: Digest)
    requires DiskRuns.Inv(g, d) && d.top.Some? && DiskRuns.Own(d).Some? && Sealing(g, d, s, disk, n)
    requires HasData(DiskRuns.Own(d).value, h) && HasData(DiskRuns.NewLayer(g, d), h)
    ensures Pinned(s, h)
  {
    if n >= 2 {
      SealedLayerIsPinned(g, d, n, s, disk);
    } else {
      var m := DiskRuns.Own(d).value;
      assert NodeOnly(s, disk, d.sharedDepth) && s.rows[disk].chain[d.sharedDepth] == m;
      assert m in d.chain;
    }
  }

  /** The pin sets handled in the first `n` steps are of such states. */
  ghost predicate PinsWhileSealing(g: Geometry, d: DiskRuns.Disk, disk: string, ws: seq<CacheRuns.World>,
                                   steps: seq<CacheRuns.Step>, n: nat)
    requires DiskRuns.Inv(g, d) && n <= |steps| <= |ws|
  {
    forall i :: 0 <= i < n && steps[i].HandleNext? && |ws[i].queue| > 0 && ws[i].queue[0].Pin? ==>
      exists s: Shelf, k: nat :: Sealing(g, d, s, disk, k) && PinsOf(s, ws[i].queue[0].keep)
  }

  /** So, in every interleaving, a secure chunk of both layers keeps its file through
      the whole seal, whatever is evicted and wherever the seal stops. */
  lemma MergedChunkStays(g: Geometry, d: DiskRuns.Disk, disk: string, ws: seq<CacheRuns.World>,
                         steps: seq<CacheRuns.Step>, n: nat, h: Digest, id: nat)
    requires DiskRuns.Inv(g, d) && d.top.Some? && DiskRuns.Own(d).Some?
    requires HasData(DiskRuns.Own(d).value, h) && HasData(DiskRuns.NewLayer(g, d), h)
    requires CacheRuns.IsRun(ws, steps) && CacheRuns.Inv(ws[0]) && CacheRuns.Secure(ws[0], h, id) && n < |ws|
    requires PinsWhileSealing(g, d, disk, ws, steps, n)
    ensures h in ws[n].files
  {
    forall i | 0 <= i < n ensures !CacheRuns.Unpins(ws[i], steps[i], h) {
      if steps[i].HandleNext? && |ws[i].queue| > 0 && ws[i].queue[0].Pin? {
        var s: Shelf, k: nat :| Sealing(g, d, s, disk, k) && PinsOf(s, ws[i].queue[0].keep);
        MergedChunkIsPinned(g, d, k, s, disk, h);
      }
    }
    CacheRuns.SecureChunkStays(ws, steps, n, h, id);
  }
}
