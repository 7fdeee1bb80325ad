/** A sweep of the store as steps of the machine of uploads: what its passes and
    the unmarking do to the chunks, the manifests and the markers. */
module PushSweep {
  import opened Wrappers
  import opened Push
  import opened PushRuns
  import opened Sweep
  import opened SweepPasses
  import opened SweepPlan

  /** The chunks an upload or a reader finds in the bucket: each at its own key. */
  ghost function Present(p: Parsers, bucket: Bucket): set<Hash> {
    set k | k in bucket && p.chunk(k).Some? && k == p.chunkKey(p.chunk(k).value) :: p.chunk(k).value
  }

  /** The layer's manifest, its parent and its chunks, is in the bucket; `name` is
      a layer's id. */
  ghost predicate IsStored(p: Parsers, name: Layer -> string, bucket: Bucket, l: Layer) {
    var k := p.layerKey(name(l));
    && k in bucket && bucket[k].content.ManifestFile?
    && bucket[k].content.manifest.parent == (if l.parent.Some? then Some(name(l.parent.value)) else None)
    && bucket[k].content.manifest.chunks == set h | h in l.chunks
  }

  /** A node at rest and its bucket, of all layers there are. */
  ghost function Abstract(p: Parsers, name: Layer -> string, bucket: Bucket, cached: set<Hash>, marks: set<Hash>,
                          all: set<Layer>): State {
    State(cached, marks, Present(p, bucket), set l | l in all && IsStored(p, name, bucket, l), map[])
  }

  lemma StoredHasChunks(p: Parsers, name: Layer -> string, local: map<string, Manifest>, bucket: Bucket, l: Layer,
                        h: Hash)
    requires KeysOk(p) && CopiesAgree(p, local, bucket) && IsStored(p, name, bucket, l) && h in l.chunks
    ensures HasChunk(p, local, bucket, h)
  {
    var k := p.layerKey(name(l));
    assert p.layer(k) == Some(name(l));
    ManifestHasChunks(p, local, bucket, k, h);
  }

  /** No sweep brings a manifest. */
  lemma StoredStays(p: Parsers, name: Layer -> string, bucket: Bucket, after: Bucket)
    requires Within(bucket, after)
    ensures forall l :: IsStored(p, name, after, l) ==> IsStored(p, name, bucket, l)
  {
  }

  lemma GoneFromItsKey(p: Parsers, bucket: Bucket, after: Bucket, h: Hash)
    requires h in Present(p, bucket) && h !in Present(p, after)
    ensures p.chunk(p.chunkKey(h)).Some? && p.chunk(p.chunkKey(h)).value == h && IsGone(bucket, after, p.chunkKey(h))
  {
  }

  /** What a sweep leaves is what a step that drops manifests and one that drops
      chunks no manifest has leave. It is clean if the sweep ran through or
      deleted no marked chunk. */
  lemma SweepIsRun(p: Parsers, local: map<string, Manifest>, bucket: Bucket, liveHeads: set<string>,
                   liveLayers: set<string>, readable: set<string>, young: RemoteObject -> bool, after: Bucket,
                   marks: set<Hash>, left: set<Hash>, whole: bool, name: Layer -> string, cached: set<Hash>,
                   all: set<Layer>)
    requires KeysOk(p) && CopiesAgree(p, local, bucket)
    requires SweepSafe(p, local, bucket, liveHeads, liveLayers, readable, young, after)
    requires MarksFollow(p, local, bucket, marks, after, left, whole)
    ensures Runs(Abstract(p, name, bucket, cached, marks, all), Abstract(p, name, after, cached, left, all),
                 whole || marks !! Present(p, bucket) - Present(p, after))
  {
    var s, s' := Abstract(p, name, bucket, cached, marks, all), Abstract(p, name, after, cached, left, all);
    var gone := s.chunks - s'.chunks;
    var dead := gone + (marks - left);
    var clean := whole || marks !! gone;
    var m := s.(layers := s'.layers);
    RunsNowhere(s, clean);
    assert s.layers - (s.layers - s'.layers) == s'.layers by { StoredStays(p, name, bucket, after); }
    RunsOn(s, s, PushRuns.SweepLayers(s.layers - s'.layers), m, clean);
    forall h | h in gone ensures !HasChunk(p, local, after, h) && (whole ==> h !in left) {
      GoneFromItsKey(p, bucket, after, h);
    }
    forall l, h | l in m.layers && h in l.chunks ensures h !in dead {
      StoredHasChunks(p, name, local, after, l, h);
    }
    assert s'.chunks <= s.chunks;
    assert m.chunks - gone == s'.chunks;
    assert left == if whole then marks - dead else marks;
    RunsOn(s, m, PushRuns.SweepChunks(dead, gone, whole), s', clean);
  }

  /** A sweep of the store by a node with no upload: a run of the machine, so what
      the markers and the manifests say stays true if the sweep runs through, and
      whenever no marked chunk is deleted. */
  method SweepNode(local: map<string, Manifest>, bucket: Bucket, liveHeads: set<string>, liveLayers: set<string>,
                   readable: set<string>, now: int, grace: int, dryRun: bool, marks: set<Hash>,
                   layerMarks: set<string>, mayFail: bool, ghost name: Layer -> string, ghost cached: set<Hash>,
                   ghost all: set<Layer>)
    returns (after: Bucket, ok: bool, left: set<Hash>, layersLeft: set<string>)
    requires CopiesAgree(StoreParsers(), local, bucket)
    ensures !mayFail && AllReadable(StoreParsers(), local, bucket, liveHeads) ==> ok
    ensures var p := StoreParsers();
            var clean := ok || marks !! Present(p, bucket) - Present(p, after);
            var s, s' := Abstract(p, name, bucket, cached, marks, all), Abstract(p, name, after, cached, left, all);
            Runs(s, s', clean) && (Inv(s) && clean ==> Inv(s'))
  {
    var swept;
    after, ok, left, layersLeft, swept := SweepStore(local, bucket, liveHeads, liveLayers, readable, now, grace, dryRun,
                                                     marks, layerMarks, mayFail);
    StoreParsersOk();
    ghost var p := StoreParsers();
    ghost var s, s' := Abstract(p, name, bucket, cached, marks, all), Abstract(p, name, after, cached, left, all);
    SweepIsRun(p, local, bucket, liveHeads, liveLayers, readable, Young(now, grace), after, marks, left,
               ok && !dryRun, name, cached, all);
    if Inv(s) && (ok || marks !! s.chunks - s'.chunks) { RunKeeps(s, s'); }
  }
}
