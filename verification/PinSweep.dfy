/** What a sweep of the bucket does to the pins: a row may name a layer that the
    sweep deletes, and the node's copy is the only one then. */
module PinSweep {
  import opened Wrappers
  import opened Layers
  import opened Pins
  import opened Sweep
  import opened SweepPlan
  import opened SweepPasses

  /** The bucket has no manifest of the layer; `name` is a layer's id. */
  ghost predicate Missing(p: Parsers, name: Layer -> string, bucket: Bucket, m: Layer) {
    p.layerKey(name(m)) !in bucket
  }

  ghost predicate InRow(s: Shelf, disk: string, i: nat) {
    disk in s.rows && i < |s.rows[disk].chain|
  }

  /** Every layer of a row that the bucket lacks counts as only the node's. */
  ghost predicate Covered(p: Parsers, name: Layer -> string, s: Shelf, bucket: Bucket) {
    forall disk: string, i: nat :: InRow(s, disk, i) && Missing(p, name, bucket, s.rows[disk].chain[i]) ==>
      NodeOnlyLayer(s, s.rows[disk].chain[i])
  }

  /** Every data chunk of a layer of a row that the bucket lacks is in `keep`, as far
      as the manifest is there. */
  ghost predicate KeepsMissing(p: Parsers, name: Layer -> string, s: Shelf, bucket: Bucket, keep: set<Digest>) {
    forall disk: string, i: nat, h :: InRow(s, disk, i) && HasData(s.rows[disk].chain[i], h) ==>
      h in keep || s.rows[disk].chain[i] !in s.present || !Missing(p, name, bucket, s.rows[disk].chain[i])
  }

  lemma CoveredIsPinned(p: Parsers, name: Layer -> string, s: Shelf, bucket: Bucket, keep: set<Digest>)
    requires Covered(p, name, s, bucket) && PinsOf(s, keep)
    ensures KeepsMissing(p, name, s, bucket, keep)
  {
    forall disk: string, i: nat, h |
      InRow(s, disk, i) && HasData(s.rows[disk].chain[i], h) && s.rows[disk].chain[i] in s.present
      && Missing(p, name, bucket, s.rows[disk].chain[i])
      ensures h in keep
    {
      assert Pinned(s, h);
    }
  }

  /** The markers are those of the files with these names. */
  ghost predicate MarkedBy(name: Layer -> string, s: Shelf, marks: set<string>) {
    forall disk: string, i: nat :: InRow(s, disk, i) ==>
      (s.rows[disk].chain[i] in s.uploaded <==> name(s.rows[disk].chain[i]) in marks)
  }

  function Unmarked(name: Layer -> string, s: Shelf, left: set<string>): Shelf {
    s.(uploaded := set m | m in s.uploaded && name(m) in left)
  }

  lemma NodeOnlyStays(name: Layer -> string, s: Shelf, left: set<string>, m: Layer)
    requires NodeOnlyLayer(s, m)
    ensures NodeOnlyLayer(Unmarked(name, s, left), m)
  {
    var disk: string, i: nat :| NodeOnly(s, disk, i) && s.rows[disk].chain[i] == m;
    assert NodeOnly(Unmarked(name, s, left), disk, i);
  }

  /** Once pass 2 ran through, with its markers removed, the rows are covered
      again. */
  lemma SweptIsCovered(p: Parsers, name: Layer -> string, s: Shelf, bucket: Bucket, marks: set<string>, after: Bucket,
                       left: set<string>)
    requires KeysOk(p) && Covered(p, name, s, bucket) && MarkedBy(name, s, marks)
    requires LayerMarksFollow(p, bucket, marks, after, left, true)
    ensures Covered(p, name, Unmarked(name, s, left), after)
  {
    var s' := Unmarked(name, s, left);
    forall disk: string, i: nat | InRow(s', disk, i) && Missing(p, name, after, s'.rows[disk].chain[i])
      ensures NodeOnlyLayer(s', s'.rows[disk].chain[i])
    {
      var m := s.rows[disk].chain[i];
      assert InRow(s, disk, i);
      if Missing(p, name, bucket, m) {
        NodeOnlyStays(name, s, left, m);
      } else {
        assert IsGone(bucket, after, p.layerKey(name(m))) && p.layer(p.layerKey(name(m))) == Some(name(m));
        assert NodeOnly(s', disk, i);
      }
    }
  }

  /** What pass 2 may delete. */
  ghost predicate PlannedLayer(p: Parsers, local: map<string, Manifest>, bucket: Bucket, liveLayers: set<string>,
                               readable: set<string>, young: RemoteObject -> bool, k: string) {
    && k in bucket && p.layer(k).Some? && !young(ObjectAt(bucket, k))
    && !InUse(p, ReadPart(SweepPasses.Manifests(p, local, bucket), readable), bucket, liveLayers, p.layer(k).value)
  }

  /** Wherever pass 2 stops, before it removes a marker, the rows are covered. */
  ghost predicate AnyStopCovers(p: Parsers, name: Layer -> string, s: Shelf, local: map<string, Manifest>,
                                bucket: Bucket, liveLayers: set<string>, readable: set<string>,
                                young: RemoteObject -> bool) {
    forall after: Bucket :: LayersSafe(p, local, bucket, liveLayers, readable, young, after) ==>
      Covered(p, name, s, after)
  }

  /** No layer of a row that pass 2 plans to delete is marked as uploaded, unless it
      is an unheaded disk's own. */
  ghost predicate PlanSparesMarked(p: Parsers, name: Layer -> string, s: Shelf, local: map<string, Manifest>,
                                   bucket: Bucket, liveLayers: set<string>, readable: set<string>,
                                   young: RemoteObject -> bool) {
    forall disk: string, i: nat ::
      InRow(s, disk, i)
      && PlannedLayer(p, local, bucket, liveLayers, readable, young, p.layerKey(name(s.rows[disk].chain[i]))) ==>
        NodeOnlyLayer(s, s.rows[disk].chain[i])
  }

  /** One planned layer deleted, and no marker removed. */
  lemma OneDeleted(p: Parsers, local: map<string, Manifest>, bucket: Bucket, liveLayers: set<string>,
                   readable: set<string>, young: RemoteObject -> bool, k: string)
    requires PlannedLayer(p, local, bucket, liveLayers, readable, young, k)
    ensures LayersSafe(p, local, bucket, liveLayers, readable, young, bucket - {k})
  {
    forall x | IsGone(bucket, bucket - {k}, x) ensures x == k { }
  }

  lemma SparedIsCovered(p: Parsers, name: Layer -> string, s: Shelf, local: map<string, Manifest>, bucket: Bucket,
                        liveLayers: set<string>, readable: set<string>, young: RemoteObject -> bool, after: Bucket)
    requires KeysOk(p) && Covered(p, name, s, bucket)
    requires PlanSparesMarked(p, name, s, local, bucket, liveLayers, readable, young)
    requires LayersSafe(p, local, bucket, liveLayers, readable, young, after)
    ensures Covered(p, name, s, after)
  {
    forall disk: string, i: nat | InRow(s, disk, i) && Missing(p, name, after, s.rows[disk].chain[i])
      ensures NodeOnlyLayer(s, s.rows[disk].chain[i])
    {
      var k := p.layerKey(name(s.rows[disk].chain[i]));
      if k in bucket {
        assert IsGone(bucket, after, k);
        assert PlannedLayer(p, local, bucket, liveLayers, readable, young, k);
      }
    }
  }

  /** A pass 2 that fails returns with the markers of what it deleted in place. The
      rows stay covered whichever deletes fail: exactly if the plan spares them. */
  lemma StoppedCoversIff(p: Parsers, name: Layer -> string, s: Shelf, local: map<string, Manifest>, bucket: Bucket,
                         liveLayers: set<string>, readable: set<string>, young: RemoteObject -> bool)
    requires KeysOk(p) && Covered(p, name, s, bucket)
    ensures AnyStopCovers(p, name, s, local, bucket, liveLayers, readable, young) <==>
            PlanSparesMarked(p, name, s, local, bucket, liveLayers, readable, young)
  {
    if AnyStopCovers(p, name, s, local, bucket, liveLayers, readable, young) {
      forall disk: string, i: nat | InRow(s, disk, i)
        && PlannedLayer(p, local, bucket, liveLayers, readable, young, p.layerKey(name(s.rows[disk].chain[i])))
        ensures NodeOnlyLayer(s, s.rows[disk].chain[i])
      {
        var k := p.layerKey(name(s.rows[disk].chain[i]));
        OneDeleted(p, local, bucket, liveLayers, readable, young, k);
        assert Covered(p, name, s, bucket - {k}) && Missing(p, name, bucket - {k}, s.rows[disk].chain[i]);
      }
    }
    if PlanSparesMarked(p, name, s, local, bucket, liveLayers, readable, young) {
      forall after: Bucket | LayersSafe(p, local, bucket, liveLayers, readable, young, after)
        ensures Covered(p, name, s, after)
      {
        SparedIsCovered(p, name, s, local, bucket, liveLayers, readable, young, after);
      }
    }
  }

  /** The node has one disk, over one layer, which is uploaded. */
  ghost function OneRow(disk: string, m: Layer): Shelf {
    Shelf(map[disk := Row([m], 1)], {}, {m}, {m})
  }

  /** Without a head and a name nothing is in use. */
  lemma NothingInUse(p: Parsers, local: map<string, Manifest>, bucket: Bucket, readable: set<string>, id: string)
    requires KeysOk(p) && forall k :: k in bucket ==> p.layer(k).Some?
    ensures !InUse(p, ReadPart(SweepPasses.Manifests(p, local, bucket), readable), bucket, {}, id)
  {
    assert Roots(p, bucket, {}) == {};
    var store := ReadPart(SweepPasses.Manifests(p, local, bucket), readable);
    forall n: nat ensures !Reaches(store, {}, id, n) {
      if Reaches(store, {}, id, n) { ReachedIsIn(store, {}, {}, id, n); }
    }
  }

  /** Where it shows: the layer is old and nothing names it in the bucket. The sweep
      deletes it and fails on something else; no chunk of it is pinned, though the
      node has the only copy. */
  lemma StoppedSweepUnpins(p: Parsers, name: Layer -> string, disk: string, m: Layer, stored: Stored,
                           young: RemoteObject -> bool, h: Digest)
    requires KeysOk(p) && !young(RemoteObject(p.layerKey(name(m)), stored.modified)) && HasData(m, h)
    ensures var (s, bucket) := (OneRow(disk, m), map[p.layerKey(name(m)) := stored]);
            && Covered(p, name, s, bucket)
            && LayersSafe(p, map[], bucket, {}, {}, young, map[])
            && Missing(p, name, map[], m) && PinsOf(s, {})
  {
    var (s, k) := (OneRow(disk, m), p.layerKey(name(m)));
    var bucket: Bucket := map[k := stored];
    assert p.layer(k) == Some(name(m));
    NothingInUse(p, map[], bucket, {}, name(m));
    OneDeleted(p, map[], bucket, {}, {}, young, k);
    assert bucket - {k} == map[];
    forall x ensures !NodeOnlyLayer(s, x) {
      if disk': string, i: nat :| NodeOnly(s, disk', i) { assert false; }
    }
  }

  /** A sweep, and the pins as they are refreshed after its pass 2. Once that pass
      ran through, every data chunk of a row's layer that the bucket lacks is
      pinned. */
  method SweepAndPin(local: map<string, Manifest>, bucket: Bucket, liveHeads: set<string>, liveLayers: set<string>,
                     readable: set<string>, now: int, grace: int, dryRun: bool, marks: set<string>,
                     layerMarks: set<string>, mayFail: bool, s: Shelf, name: Layer -> string)
    returns (after: Bucket, layersLeft: set<string>, swept: bool, keep: set<Digest>)
    requires Covered(StoreParsers(), name, s, bucket) && MarkedBy(name, s, layerMarks)
    ensures !mayFail && !dryRun && AllReadable(StoreParsers(), local, bucket, liveHeads) ==> swept
    ensures swept ==> KeepsMissing(StoreParsers(), name, s, after, keep)
  {
    StoreParsersOk();
    var ok, left;
    after, ok, left, layersLeft, swept := SweepStore(local, bucket, liveHeads, liveLayers, readable, now, grace, dryRun,
                                                     marks, layerMarks, mayFail);
    var s' := Unmarked(name, s, layersLeft);
    keep := PinnedRowChunks(s');
    if swept {
      SweptIsCovered(StoreParsers(), name, s, bucket, layerMarks, after, layersLeft);
      CoveredIsPinned(StoreParsers(), name, s', after, keep);
      assert forall disk: string, i: nat :: InRow(s, disk, i) ==> InRow(s', disk, i);
    }
  }
}
