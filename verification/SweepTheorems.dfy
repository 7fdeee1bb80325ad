/** What a sweep keeps and deletes, said of the objects of the store by their keys
    and of the fields of the heads and manifests in them. */
module SweepTheorems {
  import opened Wrappers
  import opened StoreKeys
  import opened Sweep
  import opened SweepPlan
  import opened SweepPasses

  /** A checkpoint's object. */
  ghost predicate IsSnapshotKey(k: string, id: string, epoch: string, file: string) {
    && '/' !in id && '/' !in epoch && id != "" && epoch != "" && file != ""
    && k == "snapshots/" + (id + "/" + epoch) + "/" + file
  }

  ghost predicate IsManifestKey(k: string, id: string) {
    k == "layers/" + id + ".manifest"
  }

  ghost predicate IsChunkKey(k: string, hex: string) {
    |hex| == 64 && '/' !in hex && k == "chunks/" + hex[..2] + "/" + hex + ".zst"
  }

  ghost predicate IsHeadOf(bucket: Bucket, k: string, head: Head) {
    k in bucket && bucket[k].content == HeadFile(head) && ValidHead(head)
  }

  /** The keys are read as they are written. */
  lemma SnapshotKeyParses(k: string, id: string, epoch: string, file: string)
    requires IsSnapshotKey(k, id, epoch, file)
    ensures StoreParsers().split(k) == Some((id + "/" + epoch, file))
  {
    SnapshotKeySplits(id, epoch, file);
  }

  lemma EpochKeyIs(k: string, id: string, epoch: string)
    requires '/' !in id && '/' !in epoch && id != "" && epoch != ""
    requires StoreParsers().split(k).Some? && StoreParsers().split(k).value.0 == id + "/" + epoch
    ensures IsSnapshotKey(k, id, epoch, StoreParsers().split(k).value.1)
  {
    SnapshotKeyIs(k);
  }

  lemma ManifestKeyParses(k: string, id: string)
    requires IsManifestKey(k, id)
    ensures StoreParsers().layerKey(id) == k && StoreParsers().layer(k) == Some(id)
  {
    LayerKeySplits(id);
  }

  lemma ChunkKeyParses(k: string, hex: string)
    requires IsChunkKey(k, hex)
    ensures StoreParsers().chunk(k) == Some(hex)
  {
    ChunkKeySplits(hex);
  }

  /** A store can be swept through if each head.json in it, and each the caller names,
      holds a valid head, and each layer's manifest is one or the node has a copy. */
  lemma SoundIsReadable(local: map<string, Manifest>, bucket: Bucket, liveHeads: set<string>)
    requires forall h :: h in bucket && h in liveHeads ==> exists head :: IsHeadOf(bucket, h, head)
    requires forall h, id, epoch :: h in bucket && IsSnapshotKey(h, id, epoch, "head.json") ==>
               exists head :: IsHeadOf(bucket, h, head)
    requires forall k, id :: k in bucket && IsManifestKey(k, id) ==> id in local || bucket[k].content.ManifestFile?
    ensures AllReadable(StoreParsers(), local, bucket, liveHeads)
  {
    var p := StoreParsers();
    forall h | h in bucket && h in liveHeads ensures DecodeHead(bucket[h]).Some? {
      var head :| IsHeadOf(bucket, h, head);
    }
    forall h | h in bucket && IsHeadAt(p, h) ensures DecodeHead(bucket[h]).Some? {
      var id, epoch := EpochIs(h);
      EpochKeyIs(h, id, epoch);
      var head :| IsHeadOf(bucket, h, head);
    }
    forall id | id in LayerIds(p, bucket) ensures ManifestForSweep(p, local, bucket, id).Some? {
      var k :| k in bucket && p.layer(k) == Some(id);
      assert IsManifestKey(k, id);
    }
  }

  // ---- what stays, wherever the sweep stops ----------------------------------------------

  /** Nothing inside the grace is deleted. */
  lemma YoungStays(local: map<string, Manifest>, bucket: Bucket, liveHeads: set<string>, liveLayers: set<string>,
                   readable: set<string>, now: int, grace: int, after: Bucket, k: string)
    requires SweepSafe(StoreParsers(), local, bucket, liveHeads, liveLayers, readable, Young(now, grace), after)
    requires k in bucket && 0 < grace <= I64_MAX && now - bucket[k].modified < grace
    ensures k in after && after[k] == bucket[k]
  {
    YoungIff(ObjectAt(bucket, k), now, grace);
    assert !IsGone(bucket, after, k);
  }

  /** Nothing but checkpoints, layers and chunks is deleted. */
  lemma OthersStay(local: map<string, Manifest>, bucket: Bucket, liveHeads: set<string>, liveLayers: set<string>,
                   readable: set<string>, now: int, grace: int, after: Bucket, k: string)
    requires SweepSafe(StoreParsers(), local, bucket, liveHeads, liveLayers, readable, Young(now, grace), after)
    requires k in bucket && !("snapshots/" <= k) && !("layers/" <= k) && !("chunks/" <= k)
    ensures k in after && after[k] == bucket[k]
  {
    assert !IsGone(bucket, after, k);
  }

  lemma EpochStays(local: map<string, Manifest>, bucket: Bucket, liveHeads: set<string>, liveLayers: set<string>,
                   readable: set<string>, now: int, grace: int, after: Bucket, h: string, k: string, id: string,
                   epoch: string, file: string)
    requires SweepSafe(StoreParsers(), local, bucket, liveHeads, liveLayers, readable, Young(now, grace), after)
    requires IsSnapshotKey(h, id, epoch, "head.json") && h in bucket && SweepPasses.Wanted(bucket, liveHeads, h)
    requires IsSnapshotKey(k, id, epoch, file) && k in bucket
    ensures k in after && after[k] == bucket[k]
  {
    SnapshotKeyParses(h, id, epoch, "head.json");
    SnapshotKeyParses(k, id, epoch, file);
    assert WantedEpoch(StoreParsers(), bucket, liveHeads, id + "/" + epoch);
  }

  /** Every object of a checkpoint whose head the caller names stays. */
  lemma NamedCheckpointStays(local: map<string, Manifest>, bucket: Bucket, liveHeads: set<string>,
                             liveLayers: set<string>, readable: set<string>, now: int, grace: int, after: Bucket,
                             h: string, k: string, id: string, epoch: string, file: string)
    requires SweepSafe(StoreParsers(), local, bucket, liveHeads, liveLayers, readable, Young(now, grace), after)
    requires IsSnapshotKey(h, id, epoch, "head.json") && h in bucket && h in liveHeads
    requires IsSnapshotKey(k, id, epoch, file) && k in bucket
    ensures k in after && after[k] == bucket[k]
  {
    EpochStays(local, bucket, liveHeads, liveLayers, readable, now, grace, after, h, k, id, epoch, file);
  }

  /** So does every object of a checkpoint of a volume of one. */
  lemma VolumeCheckpointStays(local: map<string, Manifest>, bucket: Bucket, liveHeads: set<string>,
                              liveLayers: set<string>, readable: set<string>, now: int, grace: int, after: Bucket,
                              h: string, head: Head, v: string, k: string, id: string, epoch: string, file: string)
    requires SweepSafe(StoreParsers(), local, bucket, liveHeads, liveLayers, readable, Young(now, grace), after)
    requires h in liveHeads && IsHeadOf(bucket, h, head) && v in head.volumes
    requires IsSnapshotKey(v, id, epoch, "head.json") && v in bucket
    requires IsSnapshotKey(k, id, epoch, file) && k in bucket
    ensures k in after && after[k] == bucket[k]
  {
    assert VolumeOf(bucket, liveHeads, h, v);
    EpochStays(local, bucket, liveHeads, liveLayers, readable, now, grace, after, v, k, id, epoch, file);
  }

  ghost predicate NamedInHead(after: Bucket, h: string, head: Head, id: string) {
    && IsHeadOf(after, h, head) && (id in head.chain || head.memory == Some(id))
    && exists pod, epoch :: IsSnapshotKey(h, pod, epoch, "head.json")
  }

  /** The layer is named by the caller, or by a head that is left: in its chain, or
      as its memory. */
  ghost predicate IsNamed(after: Bucket, liveLayers: set<string>, id: string) {
    id in liveLayers || exists h, head :: NamedInHead(after, h, head, id)
  }

  lemma NamedIsRoot(after: Bucket, liveLayers: set<string>, id: string)
    requires IsNamed(after, liveLayers, id)
    ensures id in Roots(StoreParsers(), after, liveLayers)
  {
    if id !in liveLayers {
      var h, head :| NamedInHead(after, h, head, id);
      var pod, epoch :| IsSnapshotKey(h, pod, epoch, "head.json");
      SnapshotKeyParses(h, pod, epoch, "head.json");
      assert IsHeadAt(StoreParsers(), h) && DecodeHead(after[h]) == Some(head) && id in Names(head);
    }
  }

  ghost predicate ParentIs(local: map<string, Manifest>, bucket: Bucket, id: string, parent: string) {
    var k := "layers/" + id + ".manifest";
    if id in local then local[id].parent == Some(parent)
    else k in bucket && bucket[k].content.ManifestFile? && bucket[k].content.manifest.parent == Some(parent)
  }

  /** A chain of manifests that were read, each the parent of the one before. */
  ghost predicate ReadChain(local: map<string, Manifest>, bucket: Bucket, readable: set<string>, ids: seq<string>) {
    forall i :: 0 <= i < |ids| - 1 ==> ids[i] in readable && ParentIs(local, bucket, ids[i], ids[i + 1])
  }

  lemma ParentInStore(local: map<string, Manifest>, bucket: Bucket, id: string, parent: string)
    requires ParentIs(local, bucket, id, parent)
    ensures var store := Manifests(StoreParsers(), local, bucket); id in store && store[id].parent == Some(parent)
  {
    var k := "layers/" + id + ".manifest";
    ManifestKeyParses(k, id);
    if id !in local { assert id in LayerIds(StoreParsers(), bucket); }
  }

  lemma {:induction false} ChainIsReached(local: map<string, Manifest>, bucket: Bucket, readable: set<string>,
                                          roots: set<string>, ids: seq<string>)
    requires |ids| > 0 && ids[0] in roots && ReadChain(local, bucket, readable, ids)
    ensures Reachable(ReadPart(Manifests(StoreParsers(), local, bucket), readable), roots, ids[|ids| - 1])
  {
    var part := ReadPart(Manifests(StoreParsers(), local, bucket), readable);
    if |ids| == 1 {
      assert Reaches(part, roots, ids[0], 0);
    } else {
      var init := ids[..|ids| - 1];
      ChainIsReached(local, bucket, readable, roots, init);
      ParentInStore(local, bucket, ids[|ids| - 2], ids[|ids| - 1]);
      ParentReached(part, roots, ids[|ids| - 2]);
    }
  }

  /** A layer that is named stays, and so do its ancestors as far as manifests
      were read. */
  lemma ChainStays(local: map<string, Manifest>, bucket: Bucket, liveHeads: set<string>, liveLayers: set<string>,
                   readable: set<string>, now: int, grace: int, after: Bucket, ids: seq<string>, k: string)
    requires SweepSafe(StoreParsers(), local, bucket, liveHeads, liveLayers, readable, Young(now, grace), after)
    requires |ids| > 0 && IsNamed(after, liveLayers, ids[0]) && ReadChain(local, bucket, readable, ids)
    requires IsManifestKey(k, ids[|ids| - 1]) && k in bucket
    ensures k in after && after[k] == bucket[k]
  {
    NamedIsRoot(after, liveLayers, ids[0]);
    ChainIsReached(local, bucket, readable, Roots(StoreParsers(), after, liveLayers), ids);
    ManifestKeyParses(k, ids[|ids| - 1]);
  }

  /** Every layer of the chain of a head that is left stays, and its memory. */
  lemma HeadLayersStay(local: map<string, Manifest>, bucket: Bucket, liveHeads: set<string>, liveLayers: set<string>,
                       readable: set<string>, now: int, grace: int, after: Bucket, h: string, head: Head, pod: string,
                       epoch: string, id: string, k: string)
    requires SweepSafe(StoreParsers(), local, bucket, liveHeads, liveLayers, readable, Young(now, grace), after)
    requires IsSnapshotKey(h, pod, epoch, "head.json") && IsHeadOf(after, h, head)
    requires (id in head.chain || head.memory == Some(id)) && IsManifestKey(k, id) && k in bucket
    ensures k in after && after[k] == bucket[k]
  {
    assert NamedInHead(after, h, head, id);
    ChainStays(local, bucket, liveHeads, liveLayers, readable, now, grace, after, [id], k);
  }

  /** The chunks of a layer that is left stay. */
  lemma LayerChunksStay(local: map<string, Manifest>, bucket: Bucket, liveHeads: set<string>, liveLayers: set<string>,
                        readable: set<string>, now: int, grace: int, after: Bucket, k: string, id: string, c: string,
                        hex: string)
    requires SweepSafe(StoreParsers(), local, bucket, liveHeads, liveLayers, readable, Young(now, grace), after)
    requires CopiesAgree(StoreParsers(), local, bucket)
    requires IsManifestKey(k, id) && k in after && after[k].content.ManifestFile?
    requires IsChunkKey(c, hex) && c in bucket && hex in after[k].content.manifest.chunks
    ensures c in after && after[c] == bucket[c]
  {
    StoreParsersOk();
    ManifestKeyParses(k, id);
    ChunkKeyParses(c, hex);
    ManifestHasChunks(StoreParsers(), local, after, k, hex);
  }

  // ---- what goes, once the sweep ran through ------------------------------------------------

  /** No object of the checkpoint is inside the grace. */
  ghost predicate OldCheckpoint(bucket: Bucket, now: int, grace: int, id: string, epoch: string) {
    forall k, file :: k in bucket && IsSnapshotKey(k, id, epoch, file) ==> now - bucket[k].modified >= grace
  }

  lemma UnwantedEpoch(bucket: Bucket, liveHeads: set<string>, h: string, id: string, epoch: string)
    requires IsSnapshotKey(h, id, epoch, "head.json") && h !in liveHeads
    requires forall l, head :: l in liveHeads && IsHeadOf(bucket, l, head) ==> h !in head.volumes
    ensures !WantedEpoch(StoreParsers(), bucket, liveHeads, id + "/" + epoch)
  {
    var p, e := StoreParsers(), id + "/" + epoch;
    forall x | x in bucket && p.split(x) == Some((e, HEAD)) ensures !SweepPasses.Wanted(bucket, liveHeads, x) {
      EpochKeyIs(x, id, epoch);
      assert x == h;
      forall l ensures !VolumeOf(bucket, liveHeads, l, h) {
        if VolumeOf(bucket, liveHeads, l, h) { assert IsHeadOf(bucket, l, DecodeHead(bucket[l]).value); }
      }
    }
  }

  lemma OldEpoch(bucket: Bucket, now: int, grace: int, id: string, epoch: string)
    requires '/' !in id && '/' !in epoch && id != "" && epoch != ""
    requires grace <= I64_MAX && OldCheckpoint(bucket, now, grace, id, epoch)
    ensures !YoungEpoch(StoreParsers(), bucket, Young(now, grace), id + "/" + epoch)
  {
    var p, e := StoreParsers(), id + "/" + epoch;
    forall y | y in bucket && p.split(y).Some? && p.split(y).value.0 == e
      ensures !TooYoung(ObjectAt(bucket, y), now, grace)
    {
      EpochKeyIs(y, id, epoch);
      YoungIff(ObjectAt(bucket, y), now, grace);
    }
  }

  /** A checkpoint past the grace goes whole if the caller names neither its head
      nor one that has it as a volume. */
  lemma UnnamedCheckpointGoes(local: map<string, Manifest>, bucket: Bucket, liveHeads: set<string>,
                              liveLayers: set<string>, readable: set<string>, now: int, grace: int, after: Bucket,
                              h: string, k: string, id: string, epoch: string, file: string)
    requires SweepDone(StoreParsers(), local, bucket, liveHeads, liveLayers, readable, Young(now, grace), after)
    requires IsSnapshotKey(h, id, epoch, "head.json") && h !in liveHeads
    requires forall l, head :: l in liveHeads && IsHeadOf(bucket, l, head) ==> h !in head.volumes
    requires IsSnapshotKey(k, id, epoch, file) && grace <= I64_MAX && OldCheckpoint(bucket, now, grace, id, epoch)
    ensures k !in after
  {
    SnapshotKeyParses(k, id, epoch, file);
    UnwantedEpoch(bucket, liveHeads, h, id, epoch);
    OldEpoch(bucket, now, grace, id, epoch);
  }

  /** A root is a layer that is named. */
  lemma RootIsNamed(after: Bucket, liveLayers: set<string>, id: string)
    ensures id in Roots(StoreParsers(), after, liveLayers) <==> IsNamed(after, liveLayers, id)
  {
    if IsNamed(after, liveLayers, id) { NamedIsRoot(after, liveLayers, id); }
    if id in Roots(StoreParsers(), after, liveLayers) && id !in liveLayers {
      var h :| h in after && IsHeadAt(StoreParsers(), h) && DecodeHead(after[h]).Some?
               && id in Names(DecodeHead(after[h]).value);
      var pod, epoch := EpochIs(h);
      EpochKeyIs(h, pod, epoch);
      assert NamedInHead(after, h, DecodeHead(after[h]).value, id);
    }
  }

  /** Layers that no one names and whose children are all among them. */
  ghost predicate Unneeded(local: map<string, Manifest>, bucket: Bucket, liveLayers: set<string>, after: Bucket,
                           ids: set<string>) {
    && (forall id :: id in ids ==> !IsNamed(after, liveLayers, id))
    && (forall c, id :: id in ids && ParentIs(local, bucket, c, id) ==> c in ids)
  }

  lemma StoreParent(local: map<string, Manifest>, bucket: Bucket, c: string, id: string)
    requires var store := Manifests(StoreParsers(), local, bucket); c in store && store[c].parent == Some(id)
    ensures ParentIs(local, bucket, c, id)
  {
    ManifestKeyParses("layers/" + c + ".manifest", c);
  }

  lemma {:induction false} UnneededUnreached(local: map<string, Manifest>, bucket: Bucket, liveLayers: set<string>,
                                             readable: set<string>, after: Bucket, ids: set<string>, id: string, n: nat)
    requires Unneeded(local, bucket, liveLayers, after, ids) && id in ids
    ensures !Reaches(ReadPart(Manifests(StoreParsers(), local, bucket), readable),
                     Roots(StoreParsers(), after, liveLayers), id, n)
    decreases n
  {
    var store := Manifests(StoreParsers(), local, bucket);
    RootIsNamed(after, liveLayers, id);
    if n > 0 {
      forall c | c in store && store[c].parent == Some(id)
        ensures !Reaches(ReadPart(store, readable), Roots(StoreParsers(), after, liveLayers), c, n - 1)
      {
        StoreParent(local, bucket, c, id);
        UnneededUnreached(local, bucket, liveLayers, readable, after, ids, c, n - 1);
      }
    }
  }

  /** Such a layer goes once it is past the grace, whatever cycles the parents
      make. */
  lemma UnneededLayerGoes(local: map<string, Manifest>, bucket: Bucket, liveHeads: set<string>,
                          liveLayers: set<string>, readable: set<string>, now: int, grace: int, after: Bucket,
                          ids: set<string>, id: string, k: string)
    requires SweepDone(StoreParsers(), local, bucket, liveHeads, liveLayers, readable, Young(now, grace), after)
    requires Unneeded(local, bucket, liveLayers, after, ids) && id in ids && IsManifestKey(k, id) && k in bucket
    requires grace <= I64_MAX && now - bucket[k].modified >= grace
    ensures k !in after
  {
    ManifestKeyParses(k, id);
    YoungIff(ObjectAt(bucket, k), now, grace);
    var store, roots := Manifests(StoreParsers(), local, bucket), Roots(StoreParsers(), after, liveLayers);
    forall n: nat ensures !Reaches(ReadPart(store, readable), roots, id, n) {
      UnneededUnreached(local, bucket, liveLayers, readable, after, ids, id, n);
    }
  }

  /** A chunk past the grace goes if no manifest of a layer that is left has it,
      neither in the bucket nor as the node's copy. */
  lemma UnneededChunkGoes(local: map<string, Manifest>, bucket: Bucket, liveHeads: set<string>,
                          liveLayers: set<string>, readable: set<string>, now: int, grace: int, after: Bucket,
                          c: string, hex: string)
    requires SweepDone(StoreParsers(), local, bucket, liveHeads, liveLayers, readable, Young(now, grace), after)
    requires IsChunkKey(c, hex) && c in bucket && grace <= I64_MAX && now - bucket[c].modified >= grace
    requires forall k, id :: IsManifestKey(k, id) && k in after ==>
               && (id in local ==> hex !in local[id].chunks)
               && (after[k].content.ManifestFile? ==> hex !in after[k].content.manifest.chunks)
    ensures c !in after
  {
    var p := StoreParsers();
    ChunkKeyParses(c, hex);
    YoungIff(ObjectAt(bucket, c), now, grace);
    forall id | id in LayerIds(p, after) && ManifestForSweep(p, local, after, id).Some?
      ensures hex !in ManifestForSweep(p, local, after, id).value.chunks
    {
      assert IsManifestKey(p.layerKey(id), id);
      ManifestKeyParses(p.layerKey(id), id);
      StoreParsersOk();
    }
  }
}
