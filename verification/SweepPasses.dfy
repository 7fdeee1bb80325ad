/** The three passes of a sweep, one after the other. Any delete may fail, which
    stops the sweep, and so do an unreadable head and a spent budget. `mayFail` says
    that the bucket may fail a read or a delete, or that the time may run out. */
module SweepPasses {
  import opened Wrappers
  import opened StoreKeys
  import opened SweepPlan
  import opened Sweep

  /** How keys are read. */
  datatype Parsers = Parsers(split: Parser, layer: string -> Option<string>, chunk: string -> Option<string>,
                             layerKey: string -> string, chunkKey: string -> string,
                             snapshots: string, layers: string, chunks: string)

  /** A checkpoint's object and a layer have one key each, no key is of two
      kinds, and a listing of a kind's prefix has all of it. */
  ghost predicate KeysOk(p: Parsers) {
    && OneKeyEach(p.split)
    && (forall k, id :: p.layer(k) == Some(id) <==> k == p.layerKey(id))
    && (forall k :: p.split(k).Some? ==> p.layer(k).None? && p.chunk(k).None? && p.snapshots <= k)
    && (forall k :: p.layer(k).Some? ==> p.chunk(k).None? && p.layers <= k)
    && (forall k :: p.chunk(k).Some? ==> p.chunks <= k)
  }

  function StoreParsers(): Parsers {
    Parsers(SplitSnapshotKey, LayerIdOfKey, ChunkHexOfKey, LayerKey, ChunkKey, SNAPSHOTS, LAYERS, CHUNKS)
  }

  lemma StoreParsersOk()
    ensures KeysOk(StoreParsers())
  {
    var p := StoreParsers();
    forall a, b | p.split(a).Some? && p.split(a) == p.split(b) ensures a == b {
      SnapshotKeyIs(a);
      SnapshotKeyIs(b);
    }
    forall k, id ensures p.layer(k) == Some(id) <==> k == p.layerKey(id) {
      LayerKeySplits(id);
    }
    forall k ensures p.split(k).Some? ==> p.layer(k).None? && p.chunk(k).None?
             ensures p.layer(k).Some? ==> p.chunk(k).None?
    {
      KindsApart(k);
    }
  }

  // ---- the bucket -------------------------------------------------------------------------

  /** Objects are only ever deleted. */
  ghost predicate Within(before: Bucket, after: Bucket) {
    after.Keys <= before.Keys && forall k :: k in after ==> after[k] == before[k]
  }

  ghost predicate IsGone(before: Bucket, after: Bucket, key: string) {
    key in before && key !in after
  }

  function ObjectAt(bucket: Bucket, key: string): RemoteObject
    requires key in bucket
  {
    RemoteObject(key, bucket[key].modified)
  }

  ghost predicate IsListing(bucket: Bucket, prefix: string, objects: seq<RemoteObject>) {
    forall o :: o in objects <==> o.key in bucket && prefix <= o.key && o == ObjectAt(bucket, o.key)
  }

  method ListObjects(bucket: Bucket, prefix: string) returns (objects: seq<RemoteObject>)
    ensures IsListing(bucket, prefix, objects)
  {
    objects := [];
    var left := bucket.Keys;
    while left != {}
      invariant left <= bucket.Keys
      invariant forall o :: o in objects <==>
                  o.key in bucket && o.key !in left && prefix <= o.key && o == ObjectAt(bucket, o.key)
      decreases left
    {
      var k :| k in left;
      if prefix <= k {
        objects := objects + [ObjectAt(bucket, k)];
      }
      left := left - {k};
    }
  }

  /** Deletes keys; some deletes may fail, and then it is not ok. */
  method DeleteAll(bucket: Bucket, keys: seq<string>, dryRun: bool, mayFail: bool) returns (after: Bucket, ok: bool)
    ensures !mayFail ==> ok
    ensures Within(bucket, after)
    ensures forall k :: IsGone(bucket, after, k) ==> k in keys
    ensures dryRun ==> after == bucket && ok
    ensures ok && !dryRun ==> forall k :: k in keys ==> k !in after
  {
    after, ok := bucket, true;
    if dryRun { return; }
    var n := 0;
    while n < |keys|
      invariant 0 <= n <= |keys| && Within(bucket, after)
      invariant forall k :: IsGone(bucket, after, k) ==> k in keys
      invariant (ok ==> forall k :: 0 <= k < n ==> keys[k] !in after) && (!mayFail ==> ok)
    {
      var deleted: bool := *;
      if deleted || !mayFail {
        after := after - {keys[n]};
      } else {
        ok := false;
      }
      n := n + 1;
    }
  }

  function DecodeHead(s: Stored): Option<Head> {
    if s.content.HeadFile? && ValidHead(s.content.head) then Some(s.content.head) else None
  }

  // ---- pass 1 -------------------------------------------------------------------------------

  ghost predicate VolumeOf(bucket: Bucket, liveHeads: set<string>, h: string, key: string) {
    h in liveHeads && h in bucket && DecodeHead(bucket[h]).Some? && key in DecodeHead(bucket[h]).value.volumes
  }

  /** A head the caller names, or of a volume of one it names. */
  ghost predicate Wanted(bucket: Bucket, liveHeads: set<string>, key: string) {
    key in liveHeads || exists h :: VolumeOf(bucket, liveHeads, h, key)
  }

  /** The heads the caller names can be read. */
  ghost predicate HeadsReadable(bucket: Bucket, heads: set<string>) {
    forall h :: h in heads && h in bucket ==> DecodeHead(bucket[h]).Some?
  }

  method WantedHeads(bucket: Bucket, liveHeads: set<string>, mayFail: bool) returns (live: set<string>, ok: bool)
    ensures !mayFail && HeadsReadable(bucket, liveHeads) ==> ok
    ensures ok ==> forall key :: key in live <==> Wanted(bucket, liveHeads, key)
  {
    live, ok := liveHeads, true;
    var left := liveHeads;
    while left != {}
      invariant left <= liveHeads
      invariant forall key :: key in live <==>
                  key in liveHeads || exists h :: VolumeOf(bucket, liveHeads, h, key) && h !in left
      decreases left
    {
      var h :| h in left;
      var got: bool := *;
      if h in bucket {
        if (mayFail && !got) || DecodeHead(bucket[h]).None? {
          return live, false;
        }
        live := live + set v | v in DecodeHead(bucket[h]).value.volumes;
      }
      left := left - {h};
    }
  }

  /** `e` is the epoch of a head the caller wants, and it is there. */
  ghost predicate WantedEpoch(p: Parsers, bucket: Bucket, liveHeads: set<string>, e: string) {
    exists h :: h in bucket && p.split(h) == Some((e, HEAD)) && Wanted(bucket, liveHeads, h)
  }

  /** What pass 1 deletes: objects of epochs no one wants, past the grace. */
  ghost predicate SnapshotsSafe(p: Parsers, bucket: Bucket, liveHeads: set<string>, young: RemoteObject -> bool,
                                after: Bucket) {
    && Within(bucket, after)
    && forall k :: IsGone(bucket, after, k) ==>
         p.split(k).Some? && !young(ObjectAt(bucket, k)) && !WantedEpoch(p, bucket, liveHeads, p.split(k).value.0)
  }

  ghost predicate IsHeadAt(p: Parsers, h: string) {
    p.split(h).Some? && p.split(h).value.1 == HEAD
  }

  /** The heads left are those in `heads`. */
  ghost predicate HeadsLeft(p: Parsers, after: Bucket, heads: seq<string>) {
    && (forall k :: k in heads ==> IsHeadAt(p, k))
    && (forall k :: k in after && IsHeadAt(p, k) ==> k in heads)
  }

  ghost predicate YoungEpoch(p: Parsers, bucket: Bucket, young: RemoteObject -> bool, e: string) {
    exists k :: k in bucket && p.split(k).Some? && p.split(k).value.0 == e && young(ObjectAt(bucket, k))
  }

  /** Pass 1 done: what is left of checkpoints is wanted or has something inside
      the grace. */
  ghost predicate SnapshotsDone(p: Parsers, bucket: Bucket, liveHeads: set<string>, young: RemoteObject -> bool,
                                after: Bucket) {
    forall k :: k in after && p.split(k).Some? ==>
      WantedEpoch(p, bucket, liveHeads, p.split(k).value.0) || YoungEpoch(p, bucket, young, p.split(k).value.0)
  }

  lemma WantedIsNamed(p: Parsers, bucket: Bucket, liveHeads: set<string>, live: set<string>,
                      objects: seq<RemoteObject>, e: string)
    requires KeysOk(p) && IsListing(bucket, p.snapshots, objects)
    requires forall key :: key in live <==> Wanted(bucket, liveHeads, key)
    requires WantedEpoch(p, bucket, liveHeads, e)
    ensures Named(p.split, objects, live, e)
  {
    var h :| h in bucket && p.split(h) == Some((e, HEAD)) && Wanted(bucket, liveHeads, h);
    assert ObjectAt(bucket, h) in objects;
    var j :| 0 <= j < |objects| && objects[j] == ObjectAt(bucket, h);
    assert IsHead(p.split, objects[j], e) && objects[j].key in live;
  }

  lemma DeadIsSafe(p: Parsers, bucket: Bucket, liveHeads: set<string>, live: set<string>, young: RemoteObject -> bool,
                   objects: seq<RemoteObject>, o: RemoteObject)
    requires KeysOk(p) && IsListing(bucket, p.snapshots, objects)
    requires forall key :: key in live <==> Wanted(bucket, liveHeads, key)
    requires DeadObject(p.split, objects, live, young, o)
    ensures !young(o) && !WantedEpoch(p, bucket, liveHeads, p.split(o.key).value.0)
  {
    var e := p.split(o.key).value.0;
    var k :| 0 <= k < |objects| && objects[k] == o;
    assert OfEpoch(p.split, objects[k], e);
    if WantedEpoch(p, bucket, liveHeads, e) {
      WantedIsNamed(p, bucket, liveHeads, live, objects, e);
    }
  }

  lemma KeptIsWanted(p: Parsers, bucket: Bucket, liveHeads: set<string>, live: set<string>, young: RemoteObject -> bool,
                     objects: seq<RemoteObject>, o: RemoteObject)
    requires KeysOk(p) && IsListing(bucket, p.snapshots, objects)
    requires forall key :: key in live <==> Wanted(bucket, liveHeads, key)
    requires o in objects && p.split(o.key).Some? && !DeadObject(p.split, objects, live, young, o)
    ensures var e := p.split(o.key).value.0; WantedEpoch(p, bucket, liveHeads, e) || YoungEpoch(p, bucket, young, e)
  {
    var e := p.split(o.key).value.0;
    if Named(p.split, objects, live, e) {
      var k :| 0 <= k < |objects| && IsHead(p.split, objects[k], e) && objects[k].key in live;
      assert objects[k] in objects;
      assert objects[k].key in bucket && p.split(objects[k].key) == Some((e, HEAD));
    } else {
      var k :| 0 <= k < |objects| && OfEpoch(p.split, objects[k], e) && young(objects[k]);
      assert objects[k] in objects;
      assert objects[k].key in bucket && objects[k] == ObjectAt(bucket, objects[k].key);
    }
  }

  lemma LiveHeadStays(p: Parsers, bucket: Bucket, after: Bucket, live: set<string>, young: RemoteObject -> bool,
                      objects: seq<RemoteObject>, dead: seq<string>, heads: seq<string>, k: string)
    requires IsListing(bucket, p.snapshots, objects) && Planned(p.split, objects, live, young, {}, dead, heads)
    requires (forall x :: IsGone(bucket, after, x) ==> x in dead) && k in heads
    ensures k in after && IsHeadAt(p, k)
  {
    var o :| LiveHead(p.split, objects, live, young, o) && o.key == k;
    assert k in bucket;
  }

  method SweepSnapshots(p: Parsers, bucket: Bucket, liveHeads: set<string>, young: RemoteObject -> bool, dryRun: bool,
                        mayFail: bool)
    returns (after: Bucket, ok: bool, heads: seq<string>)
    requires KeysOk(p)
    ensures !mayFail && HeadsReadable(bucket, liveHeads) ==> ok
    ensures forall k :: k in heads ==> k in after && IsHeadAt(p, k)
    ensures SnapshotsSafe(p, bucket, liveHeads, young, after)
    ensures dryRun ==> after == bucket
    ensures ok && !dryRun ==> HeadsLeft(p, after, heads) && SnapshotsDone(p, bucket, liveHeads, young, after)
  {
    after, ok, heads := bucket, false, [];
    var objects := ListObjects(bucket, p.snapshots);
    var live, read := WantedHeads(bucket, liveHeads, mayFail);
    if !read { return; }
    var dead;
    dead, heads := PlanSnapshots(p.split, objects, live, young);
    after, ok := DeleteAll(bucket, dead, dryRun, mayFail);
    forall k | k in heads ensures k in after && IsHeadAt(p, k) {
      LiveHeadStays(p, bucket, after, live, young, objects, dead, heads, k);
    }
    forall k | IsGone(bucket, after, k)
      ensures p.split(k).Some? && !young(ObjectAt(bucket, k)) && !WantedEpoch(p, bucket, liveHeads, p.split(k).value.0)
    {
      var o :| DeadObject(p.split, objects, live, young, o) && o.key == k;
      DeadIsSafe(p, bucket, liveHeads, live, young, objects, o);
    }
    if ok && !dryRun {
      forall k | k in after && IsHeadAt(p, k) ensures k in heads {
        var o := ObjectAt(bucket, k);
        assert o in objects;
        assert DeadObject(p.split, objects, live, young, o) || LiveHead(p.split, objects, live, young, o);
      }
      forall k | k in after && p.split(k).Some?
        ensures WantedEpoch(p, bucket, liveHeads, p.split(k).value.0)
                || YoungEpoch(p, bucket, young, p.split(k).value.0)
      {
        var o := ObjectAt(bucket, k);
        assert o in objects;
        KeptIsWanted(p, bucket, liveHeads, live, young, objects, o);
      }
    }
  }

  // ---- pass 2 ---------------------------------------------------------------------------------

  /** A manifest, from the node's own copies or from the bucket. */
  function ManifestForSweep(p: Parsers, local: map<string, Manifest>, bucket: Bucket, id: string): Option<Manifest> {
    if id in local then Some(local[id])
    else if p.layerKey(id) in bucket && bucket[p.layerKey(id)].content.ManifestFile?
    then Some(bucket[p.layerKey(id)].content.manifest)
    else None
  }

  function LayerIds(p: Parsers, bucket: Bucket): set<string> {
    set k | k in bucket && p.layer(k).Some? :: p.layer(k).value
  }

  /** All the manifests there are, on the node or in the bucket. */
  function Manifests(p: Parsers, local: map<string, Manifest>, bucket: Bucket): map<string, Manifest> {
    map id | id in local.Keys + LayerIds(p, bucket) && ManifestForSweep(p, local, bucket, id).Some?
      :: ManifestForSweep(p, local, bucket, id).value
  }

  lemma SameManifests(p: Parsers, local: map<string, Manifest>, before: Bucket, after: Bucket)
    requires KeysOk(p) && Within(before, after)
    requires forall k :: IsGone(before, after, k) ==> p.layer(k).None?
    ensures Manifests(p, local, after) == Manifests(p, local, before)
  {
    assert LayerIds(p, after) == LayerIds(p, before);
    forall id ensures ManifestForSweep(p, local, after, id) == ManifestForSweep(p, local, before, id) {
      assert p.layer(p.layerKey(id)) == Some(id);
      assert !IsGone(before, after, p.layerKey(id));
    }
  }

  /** The layers a head names. */
  function Names(h: Head): set<string> {
    (set id | id in h.chain) + if h.memory.Some? then {h.memory.value} else {}
  }

  /** A head that is there and can be read names the layer. */
  ghost predicate NamedBy(bucket: Bucket, h: string, id: string) {
    h in bucket && DecodeHead(bucket[h]).Some? && id in Names(DecodeHead(bucket[h]).value)
  }

  ghost predicate NamedAmong(bucket: Bucket, heads: seq<string>, id: string) {
    exists k :: 0 <= k < |heads| && NamedBy(bucket, heads[k], id)
  }

  lemma NamedNext(bucket: Bucket, heads: seq<string>, n: nat, id: string)
    requires n < |heads|
    ensures NamedAmong(bucket, heads[..n + 1], id) <==>
            NamedAmong(bucket, heads[..n], id) || NamedBy(bucket, heads[n], id)
  {
    var all, some := heads[..n + 1], heads[..n];
    assert all[n] == heads[n] && forall k :: 0 <= k < n ==> all[k] == some[k];
  }

  /** The layers named by the caller, and by the heads in `heads`. */
  method HeadLayers(bucket: Bucket, heads: seq<string>, liveLayers: set<string>, mayFail: bool)
    returns (layers: set<string>, ok: bool)
    ensures !mayFail && (forall h :: h in heads ==> h in bucket && DecodeHead(bucket[h]).Some?) ==> ok
    ensures ok ==> forall id :: id in layers <==> id in liveLayers || NamedAmong(bucket, heads, id)
  {
    layers, ok := liveLayers, true;
    var n := 0;
    while n < |heads|
      invariant 0 <= n <= |heads| && ok
      invariant forall id :: id in layers <==> id in liveLayers || NamedAmong(bucket, heads[..n], id)
    {
      var got: bool := *;
      var h := heads[n];
      if (mayFail && !got) || h !in bucket || DecodeHead(bucket[h]).None? {
        return layers, false;
      }
      forall id ensures NamedAmong(bucket, heads[..n + 1], id) <==>
                        NamedAmong(bucket, heads[..n], id) || NamedBy(bucket, h, id) {
        NamedNext(bucket, heads, n, id);
      }
      layers := layers + Names(DecodeHead(bucket[h]).value);
      n := n + 1;
    }
    assert heads[..n] == heads;
  }

  /** The layers named by the caller, and by every head that is there. */
  ghost function Roots(p: Parsers, bucket: Bucket, liveLayers: set<string>): set<string> {
    liveLayers
    + set h, id | h in bucket && IsHeadAt(p, h) && DecodeHead(bucket[h]).Some?
                  && id in Names(DecodeHead(bucket[h]).value) :: id
  }

  lemma RootsAre(p: Parsers, bucket: Bucket, liveLayers: set<string>, heads: seq<string>, layers: set<string>)
    requires HeadsLeft(p, bucket, heads)
    requires forall id :: id in layers <==> id in liveLayers || NamedAmong(bucket, heads, id)
    ensures layers == Roots(p, bucket, liveLayers)
  {
    forall id ensures id in layers <==> id in Roots(p, bucket, liveLayers) {
      if NamedAmong(bucket, heads, id) {
        var k :| 0 <= k < |heads| && NamedBy(bucket, heads[k], id);
        assert heads[k] in heads;
      }
      if id in Roots(p, bucket, liveLayers) && id !in liveLayers {
        var h :| h in bucket && IsHeadAt(p, h) && NamedBy(bucket, h, id);
        var k :| 0 <= k < |heads| && heads[k] == h;
      }
    }
  }

  /** A layer is in use if it is named by the caller or a head that is there, or
      an ancestor of one as far as `store` tells. */
  ghost predicate InUse(p: Parsers, store: map<string, Manifest>, bucket: Bucket, liveLayers: set<string>, id: string) {
    Reachable(store, Roots(p, bucket, liveLayers), id)
  }

  /** What pass 2 deletes: layers past the grace that are not in use as far as
      the manifests it could read, those of `readable`, tell. */
  ghost predicate LayersSafe(p: Parsers, local: map<string, Manifest>, bucket: Bucket, liveLayers: set<string>,
                             readable: set<string>, young: RemoteObject -> bool, after: Bucket) {
    && Within(bucket, after)
    && forall k :: IsGone(bucket, after, k) ==>
         && p.layer(k).Some? && !young(ObjectAt(bucket, k))
         && !InUse(p, ReadPart(Manifests(p, local, bucket), readable), bucket, liveLayers, p.layer(k).value)
  }

  /** Pass 2 done: every layer left is in use, as far as it could tell, or inside
      the grace. */
  ghost predicate LayersDone(p: Parsers, local: map<string, Manifest>, bucket: Bucket, liveLayers: set<string>,
                             readable: set<string>, young: RemoteObject -> bool, after: Bucket) {
    forall k :: k in after && p.layer(k).Some? ==>
      && k in bucket
      && (|| young(ObjectAt(bucket, k))
          || InUse(p, ReadPart(Manifests(p, local, bucket), readable), bucket, liveLayers, p.layer(k).value))
  }

  /** Takes the markers of what was deleted from those a node keeps of what is in
      the bucket; `parse` reads a key. */
  method Unmark(parse: string -> Option<string>, dead: seq<string>, marks: set<string>) returns (left: set<string>)
    ensures forall x :: x in left <==> x in marks && forall k :: k in dead ==> parse(k) != Some(x)
  {
    left := marks;
    for n := 0 to |dead|
      invariant forall x :: x in left <==> x in marks && forall k :: k in dead[..n] ==> parse(k) != Some(x)
    {
      assert dead[..n + 1] == dead[..n] + [dead[n]];
      if parse(dead[n]).Some? { left := left - {parse(dead[n]).value}; }
    }
    assert dead[..|dead|] == dead;
  }

  /** Only markers of layers that are not in the bucket go, and once pass 2 is done
      no deleted layer has one. */
  ghost predicate LayerMarksFollow(p: Parsers, bucket: Bucket, marks: set<string>, after: Bucket, left: set<string>,
                                   done: bool) {
    && left <= marks && (!done ==> left == marks)
    && (forall id :: id in marks && id !in left ==> p.layerKey(id) !in after)
    && (done ==> forall k :: IsGone(bucket, after, k) && p.layer(k).Some? ==> p.layer(k).value !in left)
  }

  lemma LayersUnmarked(p: Parsers, bucket: Bucket, marks: set<string>, after: Bucket, left: set<string>,
                       dead: seq<string>)
    requires KeysOk(p)
    requires forall k :: k in dead ==> k !in after
    requires forall k :: IsGone(bucket, after, k) ==> k in dead
    requires forall x :: x in left <==> x in marks && forall k :: k in dead ==> p.layer(k) != Some(x)
    ensures LayerMarksFollow(p, bucket, marks, after, left, true)
  {
    forall id | id in marks && id !in left ensures p.layerKey(id) !in after {
      var k :| k in dead && p.layer(k) == Some(id);
      assert k == p.layerKey(id);
    }
  }

  lemma Survivors(p: Parsers, bucket: Bucket, after: Bucket, objects: seq<RemoteObject>, dead: seq<string>,
                  surviving: set<string>)
    requires KeysOk(p) && IsListing(bucket, p.layers, objects) && Within(bucket, after)
    requires forall k :: k in dead ==> k !in after
    requires forall k :: IsGone(bucket, after, k) ==> k in dead
    requires surviving == set o | o in objects && p.layer(o.key).Some? && o.key !in dead :: p.layer(o.key).value
    ensures surviving == LayerIds(p, after)
  {
    forall o | o in objects && p.layer(o.key).Some? && o.key !in dead
      ensures p.layer(o.key).value in LayerIds(p, after)
    {
      assert !IsGone(bucket, after, o.key);
    }
    forall k | k in after && p.layer(k).Some? ensures p.layer(k).value in surviving {
      var o := ObjectAt(bucket, k);
      assert o in objects && o.key !in dead;
    }
  }

  /** Pass 2; `readable` are the layers whose manifests could be read for the walk
      over parents, `marks` the layers marked as uploaded. */
  method SweepLayers(p: Parsers, local: map<string, Manifest>, bucket: Bucket, heads: seq<string>,
                     liveLayers: set<string>, readable: set<string>, young: RemoteObject -> bool, dryRun: bool,
                     marks: set<string>, mayFail: bool)
    returns (after: Bucket, ok: bool, surviving: set<string>, left: set<string>)
    requires KeysOk(p) && (dryRun || HeadsLeft(p, bucket, heads))
    ensures !mayFail && (forall h :: h in heads ==> h in bucket && DecodeHead(bucket[h]).Some?) ==> ok
    ensures surviving <= LayerIds(p, bucket)
    ensures LayersSafe(p, local, bucket, liveLayers, readable, young, after)
    ensures dryRun ==> after == bucket
    ensures ok && !dryRun ==>
              surviving == LayerIds(p, after) && LayersDone(p, local, bucket, liveLayers, readable, young, after)
    ensures LayerMarksFollow(p, bucket, marks, after, left, ok && !dryRun)
  {
    after, ok, surviving, left := bucket, false, {}, marks;
    var layers, read := HeadLayers(bucket, heads, liveLayers, mayFail);
    if !read { return; }
    var store := Manifests(p, local, bucket);
    var more := ExpandParents(store, readable, layers);
    var live := layers + set id | id in more;
    var budget: bool := *;
    if mayFail && !budget { return; }
    var objects := ListObjects(bucket, p.layers);
    var dead := PlanById(p.layer, objects, live, young);
    after, ok := DeleteAll(bucket, dead, dryRun, mayFail);
    surviving := (set o | o in objects && p.layer(o.key).Some? && o.key !in dead :: p.layer(o.key).value);
    if !dryRun {
      RootsAre(p, bucket, liveLayers, heads, layers);
      assert forall id :: id in live <==> InUse(p, ReadPart(store, readable), bucket, liveLayers, id);
      forall k | k in after && p.layer(k).Some? ensures ObjectAt(bucket, k) in objects { }
      if ok {
        Survivors(p, bucket, after, objects, dead, surviving);
        left := Unmark(p.layer, dead, marks);
        LayersUnmarked(p, bucket, marks, after, left, dead);
      }
    }
  }

  // ---- manifests that cannot be read ------------------------------------------------------------

  /** If every manifest that was reached and not read has its parent reached
      anyway, no layer in use at all is deleted. */
  lemma FoundParentsStay(p: Parsers, local: map<string, Manifest>, bucket: Bucket, liveLayers: set<string>,
                         readable: set<string>, young: RemoteObject -> bool, after: Bucket)
    requires LayersSafe(p, local, bucket, liveLayers, readable, young, after)
    requires ParentsFound(Manifests(p, local, bucket), readable, Roots(p, bucket, liveLayers))
    ensures forall k :: IsGone(bucket, after, k) ==>
              p.layer(k).Some? && !InUse(p, Manifests(p, local, bucket), bucket, liveLayers, p.layer(k).value)
  {
    AllReachedIff(Manifests(p, local, bucket), readable, Roots(p, bucket, liveLayers));
  }

  /** Everything in use is in the bucket and past the grace. */
  ghost predicate ChainsWhole(p: Parsers, local: map<string, Manifest>, bucket: Bucket, liveLayers: set<string>,
                              young: RemoteObject -> bool) {
    forall id :: InUse(p, Manifests(p, local, bucket), bucket, liveLayers, id) ==>
      p.layerKey(id) in bucket && !young(ObjectAt(bucket, p.layerKey(id)))
  }

  /** A pass that runs through over whole chains keeps all that is in use if and
      only if every manifest it reached and could not read has its parent reached
      anyway. */
  lemma UsedLayersStayIff(p: Parsers, local: map<string, Manifest>, bucket: Bucket, liveLayers: set<string>,
                          readable: set<string>, young: RemoteObject -> bool, after: Bucket)
    requires KeysOk(p) && ChainsWhole(p, local, bucket, liveLayers, young)
    requires LayersSafe(p, local, bucket, liveLayers, readable, young, after)
    requires LayersDone(p, local, bucket, liveLayers, readable, young, after)
    ensures (forall id :: InUse(p, Manifests(p, local, bucket), bucket, liveLayers, id) ==> p.layerKey(id) in after)
            <==> ParentsFound(Manifests(p, local, bucket), readable, Roots(p, bucket, liveLayers))
  {
    var store, roots := Manifests(p, local, bucket), Roots(p, bucket, liveLayers);
    AllReachedIff(store, readable, roots);
    forall id | InUse(p, store, bucket, liveLayers, id)
      ensures p.layerKey(id) in after <==> Reachable(ReadPart(store, readable), roots, id)
    {
      assert p.layer(p.layerKey(id)) == Some(id);
      if Reachable(ReadPart(store, readable), roots, id) { assert !IsGone(bucket, after, p.layerKey(id)); }
    }
  }

  /** A layer and its parent, both past the grace, with the layer alone named. */
  ghost function ChainOfTwo(p: Parsers, layer: string, parent: string, modified: int): Bucket {
    map[p.layerKey(layer) := Stored(modified, ManifestFile(Manifest(Some(parent), {}))),
        p.layerKey(parent) := Stored(modified, ManifestFile(Manifest(None, {})))]
  }

  /** The store reaches the parent of the one layer named; without that layer's
      manifest nothing does. */
  lemma ParentUnreached(p: Parsers, layer: string, parent: string, modified: int, readable: set<string>)
    requires KeysOk(p) && layer != parent && layer !in readable
    ensures var store := Manifests(p, map[], ChainOfTwo(p, layer, parent, modified));
            && Reachable(store, {layer}, parent) && !Reachable(ReadPart(store, readable), {layer}, parent)
  {
    var bucket := ChainOfTwo(p, layer, parent, modified);
    var store := Manifests(p, map[], bucket);
    assert p.layer(p.layerKey(layer)) == Some(layer) && p.layer(p.layerKey(parent)) == Some(parent);
    assert layer in LayerIds(p, bucket) && store[layer].parent == Some(parent);
    assert Reaches(store, {layer}, layer, 0);
    assert Reaches(store, {layer}, parent, 1);
    forall n: nat ensures !Reaches(ReadPart(store, readable), {layer}, parent, n) {
      if Reaches(ReadPart(store, readable), {layer}, parent, n) {
        ReachedIsIn(ReadPart(store, readable), {layer}, {layer}, parent, n);
      }
    }
  }

  lemma ParentUnused(p: Parsers, layer: string, parent: string, modified: int, readable: set<string>)
    requires KeysOk(p) && layer != parent && layer !in readable
    ensures p.layer(p.layerKey(layer)) == Some(layer) && p.layer(p.layerKey(parent)) == Some(parent)
    ensures var bucket := ChainOfTwo(p, layer, parent, modified);
            var store := Manifests(p, map[], bucket);
            && InUse(p, store, bucket, {layer}, parent)
            && InUse(p, ReadPart(store, readable), bucket, {layer}, layer)
            && !InUse(p, ReadPart(store, readable), bucket, {layer}, parent)
  {
    var bucket := ChainOfTwo(p, layer, parent, modified);
    assert p.layer(p.layerKey(layer)) == Some(layer) && p.layer(p.layerKey(parent)) == Some(parent);
    assert Roots(p, bucket, {layer}) == {layer};
    ParentUnreached(p, layer, parent, modified, readable);
    assert Reaches(ReadPart(Manifests(p, map[], bucket), readable), {layer}, layer, 0);
  }

  /** Of two old layers the one that is not in use goes. */
  lemma OneGoes(p: Parsers, bucket: Bucket, liveLayers: set<string>, readable: set<string>,
                young: RemoteObject -> bool, after: Bucket, a: string, b: string)
    requires bucket.Keys == {a, b} && p.layer(a).Some? && p.layer(b).Some?
    requires !young(ObjectAt(bucket, a)) && !young(ObjectAt(bucket, b))
    requires InUse(p, ReadPart(Manifests(p, map[], bucket), readable), bucket, liveLayers, p.layer(a).value)
    requires !InUse(p, ReadPart(Manifests(p, map[], bucket), readable), bucket, liveLayers, p.layer(b).value)
    ensures after == bucket - {b} <==>
            LayersSafe(p, map[], bucket, liveLayers, readable, young, after)
            && LayersDone(p, map[], bucket, liveLayers, readable, young, after)
  {
    if LayersSafe(p, map[], bucket, liveLayers, readable, young, after)
       && LayersDone(p, map[], bucket, liveLayers, readable, young, after) {
      assert !IsGone(bucket, after, a);
      assert after.Keys == {a};
      assert after == bucket - {b};
    }
    if after == bucket - {b} {
      assert after.Keys == {a};
      forall k | IsGone(bucket, after, k) ensures k == b { }
    }
  }

  /** A named layer whose manifest cannot be read loses its parent: every pass
      that runs through deletes it, and one does. */
  lemma UnreadLayerLosesParent(p: Parsers, layer: string, parent: string, modified: int, readable: set<string>,
                               young: RemoteObject -> bool, after: Bucket)
    requires KeysOk(p) && layer != parent && layer !in readable
    requires forall k :: k in {p.layerKey(layer), p.layerKey(parent)} ==> !young(RemoteObject(k, modified))
    ensures var bucket := ChainOfTwo(p, layer, parent, modified);
            && InUse(p, Manifests(p, map[], bucket), bucket, {layer}, parent)
            && (LayersSafe(p, map[], bucket, {layer}, readable, young, after)
                && LayersDone(p, map[], bucket, {layer}, readable, young, after) <==>
                after == bucket - {p.layerKey(parent)})
  {
    var bucket := ChainOfTwo(p, layer, parent, modified);
    ParentUnused(p, layer, parent, modified, readable);
    OneGoes(p, bucket, {layer}, readable, young, after, p.layerKey(layer), p.layerKey(parent));
  }

  // ---- pass 3 ---------------------------------------------------------------------------------

  ghost predicate ChunkAmong(p: Parsers, local: map<string, Manifest>, bucket: Bucket, ids: set<string>, hex: string) {
    exists id :: id in ids && ManifestForSweep(p, local, bucket, id).Some?
                 && hex in ManifestForSweep(p, local, bucket, id).value.chunks
  }

  lemma OneMoreLayer(p: Parsers, local: map<string, Manifest>, bucket: Bucket, ids: set<string>, id: string)
    requires ManifestForSweep(p, local, bucket, id).Some?
    ensures forall hex :: ChunkAmong(p, local, bucket, ids + {id}, hex) <==>
              ChunkAmong(p, local, bucket, ids, hex) || hex in ManifestForSweep(p, local, bucket, id).value.chunks
  {
  }

  /** The chunks of the surviving layers; it fails if one cannot be read. */
  method Referenced(p: Parsers, local: map<string, Manifest>, bucket: Bucket, surviving: set<string>, mayFail: bool)
    returns (chunks: set<string>, ok: bool)
    ensures !mayFail && (forall id :: id in surviving ==> ManifestForSweep(p, local, bucket, id).Some?) ==> ok
    ensures ok ==> forall hex :: hex in chunks <==> ChunkAmong(p, local, bucket, surviving, hex)
    ensures ok ==> forall id :: id in surviving ==> ManifestForSweep(p, local, bucket, id).Some?
  {
    chunks, ok := {}, true;
    var left := surviving;
    while left != {}
      invariant left <= surviving && ok
      invariant forall hex :: hex in chunks <==> ChunkAmong(p, local, bucket, surviving - left, hex)
      invariant forall id :: id in surviving && id !in left ==> ManifestForSweep(p, local, bucket, id).Some?
      decreases left
    {
      var id :| id in left;
      var m := ManifestForSweep(p, local, bucket, id);
      var got: bool := *;
      if (mayFail && !got) || m.None? {
        return chunks, false;
      }
      OneMoreLayer(p, local, bucket, surviving - left, id);
      assert surviving - (left - {id}) == surviving - left + {id};
      chunks := chunks + m.value.chunks;
      left := left - {id};
    }
    assert surviving - left == surviving;
  }

  /** A layer in the bucket has the chunk. */
  ghost predicate HasChunk(p: Parsers, local: map<string, Manifest>, bucket: Bucket, hex: string) {
    ChunkAmong(p, local, bucket, LayerIds(p, bucket), hex)
  }

  /** The node's copies of manifests are the bucket's: a layer's id is its
      content's. */
  ghost predicate CopiesAgree(p: Parsers, local: map<string, Manifest>, bucket: Bucket) {
    forall k :: k in bucket && p.layer(k).Some? && p.layer(k).value in local && bucket[k].content.ManifestFile? ==>
      bucket[k].content.manifest == local[p.layer(k).value]
  }

  /** A manifest in the bucket that can be read has its chunks. */
  lemma ManifestHasChunks(p: Parsers, local: map<string, Manifest>, bucket: Bucket, k: string, hex: string)
    requires KeysOk(p) && CopiesAgree(p, local, bucket) && k in bucket && p.layer(k).Some?
    requires bucket[k].content.ManifestFile? && hex in bucket[k].content.manifest.chunks
    ensures HasChunk(p, local, bucket, hex)
  {
    var id := p.layer(k).value;
    assert id in LayerIds(p, bucket) && p.layerKey(id) == k;
  }

  /** What pass 3 plans to delete: chunks of no layer in the bucket, past the
      grace. */
  ghost predicate DeadChunk(p: Parsers, local: map<string, Manifest>, bucket: Bucket, young: RemoteObject -> bool,
                            k: string) {
    && k in bucket && p.chunk(k).Some? && !young(ObjectAt(bucket, k))
    && !HasChunk(p, local, bucket, p.chunk(k).value)
  }

  ghost predicate ChunksSafe(p: Parsers, local: map<string, Manifest>, bucket: Bucket, young: RemoteObject -> bool,
                             after: Bucket) {
    Within(bucket, after) && forall k :: IsGone(bucket, after, k) ==> DeadChunk(p, local, bucket, young, k)
  }

  /** Pass 3 done: no planned chunk is left. */
  ghost predicate ChunksDone(p: Parsers, local: map<string, Manifest>, bucket: Bucket, young: RemoteObject -> bool,
                             after: Bucket) {
    forall k :: k in after ==> !DeadChunk(p, local, bucket, young, k)
  }

  method SweepChunks(p: Parsers, local: map<string, Manifest>, bucket: Bucket, surviving: set<string>,
                     young: RemoteObject -> bool, dryRun: bool, mayFail: bool)
    returns (after: Bucket, ok: bool, dead: seq<string>)
    requires KeysOk(p) && (dryRun || surviving == LayerIds(p, bucket))
    ensures !mayFail && (forall id :: id in surviving ==> ManifestForSweep(p, local, bucket, id).Some?) ==> ok
    ensures ChunksSafe(p, local, bucket, young, after)
    ensures dryRun ==> after == bucket
    ensures !dryRun ==> forall k :: k in dead ==> DeadChunk(p, local, bucket, young, k)
    ensures forall k :: IsGone(bucket, after, k) ==> k in dead
    ensures ok && !dryRun ==> ChunksDone(p, local, bucket, young, after)
  {
    after, ok, dead := bucket, false, [];
    var budget: bool := *;
    if mayFail && !budget { return; }
    var chunks, read := Referenced(p, local, bucket, surviving, mayFail);
    if !read { return; }
    var objects := ListObjects(bucket, p.chunks);
    dead := PlanById(p.chunk, objects, chunks, young);
    after, ok := DeleteAll(bucket, dead, dryRun, mayFail);
    if !dryRun {
      forall k ensures k in dead <==> DeadChunk(p, local, bucket, young, k) {
        if DeadChunk(p, local, bucket, young, k) { assert ObjectAt(bucket, k) in objects; }
      }
    }
  }

  /** Only markers of chunks no layer has go, and after a whole sweep no deleted
      chunk has one. */
  ghost predicate MarksFollow(p: Parsers, local: map<string, Manifest>, bucket: Bucket, marks: set<string>,
                              after: Bucket, left: set<string>, whole: bool) {
    && left <= marks && (!whole ==> left == marks)
    && (forall h :: h in marks && h !in left ==> !HasChunk(p, local, after, h))
    && (whole ==> forall k :: IsGone(bucket, after, k) && p.chunk(k).Some? ==> p.chunk(k).value !in left)
  }

  // ---- a whole sweep ---------------------------------------------------------------------------

  /** What a sweep, wherever it stops, leaves alone. `readable` are the layers whose
      manifests could be read for the walk over parents. */
  ghost predicate SweepSafe(p: Parsers, local: map<string, Manifest>, bucket: Bucket, liveHeads: set<string>,
                            liveLayers: set<string>, readable: set<string>, young: RemoteObject -> bool,
                            after: Bucket) {
    && Within(bucket, after)
    // Nothing inside the grace, and nothing but checkpoints, layers and chunks, is deleted.
    && (forall k :: IsGone(bucket, after, k) ==>
          !young(ObjectAt(bucket, k)) && (p.split(k).Some? || p.layer(k).Some? || p.chunk(k).Some?))
    // A checkpoint whose head the caller wants stays whole.
    && (forall k :: k in bucket && p.split(k).Some? ==>
          WantedEpoch(p, bucket, liveHeads, p.split(k).value.0) ==> k in after)
    // A layer that is named, or an ancestor of one by manifests that were read, stays.
    && (forall k :: k in bucket && p.layer(k).Some? ==>
          InUse(p, ReadPart(Manifests(p, local, bucket), readable), after, liveLayers, p.layer(k).value) ==> k in after)
    // The chunks of every layer that is left stay.
    && (forall k :: k in bucket && p.chunk(k).Some? ==> HasChunk(p, local, after, p.chunk(k).value) ==> k in after)
  }

  /** What a sweep that ran through leaves: of checkpoints, layers and chunks
      only what is wanted, in use or inside the grace. */
  ghost predicate SweepDone(p: Parsers, local: map<string, Manifest>, bucket: Bucket, liveHeads: set<string>,
                            liveLayers: set<string>, readable: set<string>, young: RemoteObject -> bool,
                            after: Bucket) {
    && Within(bucket, after) && SnapshotsDone(p, bucket, liveHeads, young, after)
    && (forall k :: k in after && p.layer(k).Some? ==>
          || young(ObjectAt(bucket, k))
          || InUse(p, ReadPart(Manifests(p, local, bucket), readable), after, liveLayers, p.layer(k).value))
    && (forall k :: k in after && p.chunk(k).Some? ==>
          young(ObjectAt(bucket, k)) || HasChunk(p, local, after, p.chunk(k).value))
  }

  /** No pass but the first deletes a head. */
  lemma SameRoots(p: Parsers, before: Bucket, after: Bucket, liveLayers: set<string>)
    requires KeysOk(p) && Within(before, after)
    requires forall k :: IsGone(before, after, k) ==> p.layer(k).Some? || p.chunk(k).Some?
    ensures Roots(p, after, liveLayers) == Roots(p, before, liveLayers)
  {
    forall h | h in before && IsHeadAt(p, h) ensures h in after {
      assert !IsGone(before, after, h);
    }
  }

  /** Deleting chunks leaves every layer its chunks. */
  lemma SameChunks(p: Parsers, local: map<string, Manifest>, before: Bucket, after: Bucket, hex: string)
    requires KeysOk(p) && Within(before, after)
    requires forall k :: IsGone(before, after, k) ==> p.chunk(k).Some?
    ensures HasChunk(p, local, after, hex) <==> HasChunk(p, local, before, hex)
  {
    forall k | IsGone(before, after, k) ensures p.layer(k).None? { }
    assert LayerIds(p, after) == LayerIds(p, before);
    forall id ensures ManifestForSweep(p, local, after, id) == ManifestForSweep(p, local, before, id) {
      assert p.layer(p.layerKey(id)) == Some(id);
      assert !IsGone(before, after, p.layerKey(id));
    }
  }

  /** What is gone after three passes went in one of them. */
  lemma GoneInOne(p: Parsers, local: map<string, Manifest>, bucket: Bucket, liveHeads: set<string>,
                  liveLayers: set<string>, readable: set<string>, young: RemoteObject -> bool, one: Bucket, two: Bucket,
                  after: Bucket)
    requires KeysOk(p) && SnapshotsSafe(p, bucket, liveHeads, young, one)
    requires LayersSafe(p, local, one, liveLayers, readable, young, two) && ChunksSafe(p, local, two, young, after)
    ensures Within(bucket, after) && Within(one, after)
    ensures forall k :: IsGone(bucket, one, k) ==> p.split(k).Some?
    ensures forall k :: IsGone(one, after, k) ==> p.layer(k).Some? || p.chunk(k).Some?
    ensures forall k :: IsGone(bucket, after, k) ==>
              IsGone(bucket, one, k) || IsGone(one, two, k) || IsGone(two, after, k)
    ensures Manifests(p, local, one) == Manifests(p, local, bucket)
    ensures Roots(p, after, liveLayers) == Roots(p, one, liveLayers)
  {
    forall k | IsGone(one, after, k) ensures p.layer(k).Some? || p.chunk(k).Some? {
      assert IsGone(one, two, k) || IsGone(two, after, k);
    }
    forall k | IsGone(bucket, after, k)
      ensures IsGone(bucket, one, k) || IsGone(one, two, k) || IsGone(two, after, k)
    {
    }
    SameManifests(p, local, bucket, one);
    SameRoots(p, one, after, liveLayers);
  }

  /** An object that may go. */
  ghost predicate DeletedRight(p: Parsers, local: map<string, Manifest>, bucket: Bucket, liveHeads: set<string>,
                               liveLayers: set<string>, readable: set<string>, young: RemoteObject -> bool,
                               after: Bucket, k: string)
    requires k in bucket
  {
    && !young(ObjectAt(bucket, k)) && (p.split(k).Some? || p.layer(k).Some? || p.chunk(k).Some?)
    && (p.split(k).Some? ==> !WantedEpoch(p, bucket, liveHeads, p.split(k).value.0))
    && (p.layer(k).Some? ==>
          !InUse(p, ReadPart(Manifests(p, local, bucket), readable), after, liveLayers, p.layer(k).value))
    && (p.chunk(k).Some? ==> !HasChunk(p, local, after, p.chunk(k).value))
  }

  lemma GoneRight(p: Parsers, local: map<string, Manifest>, bucket: Bucket, liveHeads: set<string>,
                  liveLayers: set<string>, readable: set<string>, young: RemoteObject -> bool, one: Bucket, two: Bucket,
                  after: Bucket, k: string)
    requires KeysOk(p) && SnapshotsSafe(p, bucket, liveHeads, young, one) && IsGone(bucket, after, k)
    requires LayersSafe(p, local, one, liveLayers, readable, young, two) && ChunksSafe(p, local, two, young, after)
    ensures DeletedRight(p, local, bucket, liveHeads, liveLayers, readable, young, after, k)
  {
    GoneInOne(p, local, bucket, liveHeads, liveLayers, readable, young, one, two, after);
    if IsGone(bucket, one, k) {
    } else if IsGone(one, two, k) {
    } else {
      assert DeadChunk(p, local, two, young, k);
      SameChunks(p, local, two, after, p.chunk(k).value);
    }
  }

  lemma SafeIfRight(p: Parsers, local: map<string, Manifest>, bucket: Bucket, liveHeads: set<string>,
                    liveLayers: set<string>, readable: set<string>, young: RemoteObject -> bool, after: Bucket)
    requires Within(bucket, after)
    requires forall k :: IsGone(bucket, after, k) ==>
               DeletedRight(p, local, bucket, liveHeads, liveLayers, readable, young, after, k)
    ensures SweepSafe(p, local, bucket, liveHeads, liveLayers, readable, young, after)
  {
    forall k | k in bucket && k !in after
      ensures DeletedRight(p, local, bucket, liveHeads, liveLayers, readable, young, after, k)
    {
      assert IsGone(bucket, after, k);
    }
  }

  /** Three safe passes are a safe sweep; a pass that did not come left all as
      it was. */
  lemma SafeSoFar(p: Parsers, local: map<string, Manifest>, bucket: Bucket, liveHeads: set<string>,
                  liveLayers: set<string>, readable: set<string>, young: RemoteObject -> bool, one: Bucket, two: Bucket,
                  after: Bucket)
    requires KeysOk(p) && SnapshotsSafe(p, bucket, liveHeads, young, one)
    requires LayersSafe(p, local, one, liveLayers, readable, young, two) && ChunksSafe(p, local, two, young, after)
    ensures SweepSafe(p, local, bucket, liveHeads, liveLayers, readable, young, after)
  {
    GoneInOne(p, local, bucket, liveHeads, liveLayers, readable, young, one, two, after);
    forall k | IsGone(bucket, after, k)
      ensures DeletedRight(p, local, bucket, liveHeads, liveLayers, readable, young, after, k)
    {
      GoneRight(p, local, bucket, liveHeads, liveLayers, readable, young, one, two, after, k);
    }
    SafeIfRight(p, local, bucket, liveHeads, liveLayers, readable, young, after);
  }

  lemma AllDone(p: Parsers, local: map<string, Manifest>, bucket: Bucket, liveHeads: set<string>,
                liveLayers: set<string>, readable: set<string>, young: RemoteObject -> bool, one: Bucket, two: Bucket,
                after: Bucket)
    requires KeysOk(p) && SnapshotsSafe(p, bucket, liveHeads, young, one)
    requires SnapshotsDone(p, bucket, liveHeads, young, one)
    requires LayersSafe(p, local, one, liveLayers, readable, young, two)
    requires LayersDone(p, local, one, liveLayers, readable, young, two)
    requires ChunksSafe(p, local, two, young, after) && ChunksDone(p, local, two, young, after)
    ensures SweepDone(p, local, bucket, liveHeads, liveLayers, readable, young, after)
  {
    GoneInOne(p, local, bucket, liveHeads, liveLayers, readable, young, one, two, after);
    forall k | k in after && p.chunk(k).Some?
      ensures young(ObjectAt(bucket, k)) || HasChunk(p, local, after, p.chunk(k).value)
    {
      SameChunks(p, local, two, after, p.chunk(k).value);
    }
  }

  lemma MarksAreLeft(p: Parsers, local: map<string, Manifest>, bucket: Bucket, liveHeads: set<string>,
                     liveLayers: set<string>, readable: set<string>, young: RemoteObject -> bool, one: Bucket,
                     two: Bucket, after: Bucket, dead: seq<string>, marks: set<string>, left: set<string>)
    requires KeysOk(p) && SnapshotsSafe(p, bucket, liveHeads, young, one)
    requires LayersSafe(p, local, one, liveLayers, readable, young, two) && ChunksSafe(p, local, two, young, after)
    requires forall k :: k in dead ==> DeadChunk(p, local, two, young, k)
    requires forall k :: IsGone(two, after, k) ==> k in dead
    requires forall h :: h in left <==> h in marks && forall k :: k in dead ==> p.chunk(k) != Some(h)
    ensures MarksFollow(p, local, bucket, marks, after, left, true)
  {
    GoneInOne(p, local, bucket, liveHeads, liveLayers, readable, young, one, two, after);
    forall h | h in marks && h !in left ensures !HasChunk(p, local, after, h) {
      SameChunks(p, local, two, after, h);
    }
    forall k | IsGone(bucket, after, k) && p.chunk(k).Some? ensures p.chunk(k).value !in left {
      assert IsGone(two, after, k);
    }
  }

  lemma LayerMarksAreLeft(p: Parsers, local: map<string, Manifest>, bucket: Bucket, liveHeads: set<string>,
                          liveLayers: set<string>, readable: set<string>, young: RemoteObject -> bool, one: Bucket,
                          two: Bucket, after: Bucket, marks: set<string>, left: set<string>, done: bool)
    requires KeysOk(p) && SnapshotsSafe(p, bucket, liveHeads, young, one)
    requires LayersSafe(p, local, one, liveLayers, readable, young, two) && ChunksSafe(p, local, two, young, after)
    requires LayerMarksFollow(p, one, marks, two, left, done)
    ensures LayerMarksFollow(p, bucket, marks, after, left, done)
  {
    GoneInOne(p, local, bucket, liveHeads, liveLayers, readable, young, one, two, after);
    forall k | IsGone(bucket, after, k) && p.layer(k).Some? ensures IsGone(one, two, k) { }
  }

  /** Every head and every manifest in the bucket can be read. */
  ghost predicate AllReadable(p: Parsers, local: map<string, Manifest>, bucket: Bucket, liveHeads: set<string>) {
    && HeadsReadable(bucket, liveHeads)
    && (forall h :: h in bucket && IsHeadAt(p, h) ==> DecodeHead(bucket[h]).Some?)
    && (forall id :: id in LayerIds(p, bucket) ==> ManifestForSweep(p, local, bucket, id).Some?)
  }

  /** A layer that is left is as readable as it was. */
  lemma ReadableStays(p: Parsers, local: map<string, Manifest>, bucket: Bucket, after: Bucket)
    requires KeysOk(p) && Within(bucket, after)
    requires forall id :: id in LayerIds(p, bucket) ==> ManifestForSweep(p, local, bucket, id).Some?
    ensures forall id :: id in LayerIds(p, after) ==> ManifestForSweep(p, local, after, id).Some?
  {
    forall id | id in LayerIds(p, after) ensures ManifestForSweep(p, local, after, id).Some? {
      assert p.layerKey(id) in after && p.layer(p.layerKey(id)) == Some(id);
      assert id in LayerIds(p, bucket);
    }
  }

  /** A sweep is safe wherever it stops, and complete if it runs through. `marks`
      and `layerMarks` are the node's markers of chunks and of layers; `swept` says
      that pass 2 ran through. */
  method RunSweep(p: Parsers, local: map<string, Manifest>, bucket: Bucket, liveHeads: set<string>,
                  liveLayers: set<string>, readable: set<string>, young: RemoteObject -> bool, dryRun: bool,
                  marks: set<string>, layerMarks: set<string>, mayFail: bool)
    returns (after: Bucket, ok: bool, left: set<string>, layersLeft: set<string>, swept: bool)
    requires KeysOk(p)
    ensures !mayFail && AllReadable(p, local, bucket, liveHeads) ==> ok
    ensures SweepSafe(p, local, bucket, liveHeads, liveLayers, readable, young, after)
    ensures dryRun ==> after == bucket
    ensures ok && !dryRun ==> SweepDone(p, local, bucket, liveHeads, liveLayers, readable, young, after)
    ensures MarksFollow(p, local, bucket, marks, after, left, ok && !dryRun)
    ensures LayerMarksFollow(p, bucket, layerMarks, after, layersLeft, swept) && (ok && !dryRun ==> swept)
  {
    left, layersLeft, swept := marks, layerMarks, false;
    var heads, surviving, dead;
    after, ok, heads := SweepSnapshots(p, bucket, liveHeads, young, dryRun, mayFail);
    var one := after;
    if !ok {
      SafeSoFar(p, local, bucket, liveHeads, liveLayers, readable, young, one, one, one);
      return;
    }
    after, ok, surviving, layersLeft := SweepLayers(p, local, one, heads, liveLayers, readable, young, dryRun,
                                                    layerMarks, mayFail);
    var two := after;
    swept := ok && !dryRun;
    if !ok {
      SafeSoFar(p, local, bucket, liveHeads, liveLayers, readable, young, one, two, two);
      LayerMarksAreLeft(p, local, bucket, liveHeads, liveLayers, readable, young, one, two, two, layerMarks,
                        layersLeft, swept);
      return;
    }
    if AllReadable(p, local, bucket, liveHeads) { ReadableStays(p, local, bucket, two); }
    after, ok, dead := SweepChunks(p, local, two, surviving, young, dryRun, mayFail);
    SafeSoFar(p, local, bucket, liveHeads, liveLayers, readable, young, one, two, after);
    LayerMarksAreLeft(p, local, bucket, liveHeads, liveLayers, readable, young, one, two, after, layerMarks,
                      layersLeft, swept);
    if ok && !dryRun {
      AllDone(p, local, bucket, liveHeads, liveLayers, readable, young, one, two, after);
      left := Unmark(p.chunk, dead, marks);
      MarksAreLeft(p, local, bucket, liveHeads, liveLayers, readable, young, one, two, after, dead, marks, left);
    }
  }

  /** With the parents of unread manifests found, a sweep keeps every layer that
      is named or an ancestor of one. */
  lemma SweepKeepsChains(p: Parsers, local: map<string, Manifest>, bucket: Bucket, liveHeads: set<string>,
                         liveLayers: set<string>, readable: set<string>, young: RemoteObject -> bool, after: Bucket,
                         id: string)
    requires KeysOk(p) && SweepSafe(p, local, bucket, liveHeads, liveLayers, readable, young, after)
    requires ParentsFound(Manifests(p, local, bucket), readable, Roots(p, after, liveLayers))
    requires InUse(p, Manifests(p, local, bucket), after, liveLayers, id) && p.layerKey(id) in bucket
    ensures p.layerKey(id) in after
  {
    AllReachedIff(Manifests(p, local, bucket), readable, Roots(p, after, liveLayers));
    assert p.layer(p.layerKey(id)) == Some(id);
  }

  /** A sweep of the store, with its keys and its grace. */
  method SweepStore(local: map<string, Manifest>, bucket: Bucket, liveHeads: set<string>, liveLayers: set<string>,
                    readable: set<string>, now: int, grace: int, dryRun: bool, marks: set<string>,
                    layerMarks: set<string>, mayFail: bool)
    returns (after: Bucket, ok: bool, left: set<string>, layersLeft: set<string>, swept: bool)
    ensures !mayFail && AllReadable(StoreParsers(), local, bucket, liveHeads) ==> ok
    ensures SweepSafe(StoreParsers(), local, bucket, liveHeads, liveLayers, readable, Young(now, grace), after)
    ensures dryRun ==> after == bucket
    ensures ok && !dryRun ==>
              SweepDone(StoreParsers(), local, bucket, liveHeads, liveLayers, readable, Young(now, grace), after)
    ensures MarksFollow(StoreParsers(), local, bucket, marks, after, left, ok && !dryRun)
    ensures LayerMarksFollow(StoreParsers(), bucket, layerMarks, after, layersLeft, swept)
    ensures ok && !dryRun ==> swept
  {
    StoreParsersOk();
    after, ok, left, layersLeft, swept := RunSweep(StoreParsers(), local, bucket, liveHeads, liveLayers, readable,
                                                   Young(now, grace), dryRun, marks, layerMarks, mayFail);
  }
}
