/** What a node does to upload and to fetch a chain of layers. Each method is a
    run of the step machine. */
module PushNode {
  import opened Wrappers
  import opened Push
  import opened PushRuns

  /** Markers one by one. */
  lemma {:induction false} MarksRun(s: State, p: nat, batch: set<Hash>)
    requires p in s.uploads && batch <= s.uploads[p].confirmed
    ensures Runs(s, s.(marks := s.marks + batch), true)
    decreases batch
  {
    if batch == {} {
      RunsNowhere(s, true);
      assert s.marks + batch == s.marks;
    } else {
      var h :| h in batch;
      var m := s.(marks := s.marks + (batch - {h}));
      MarksRun(s, p, batch - {h});
      assert m.marks + {h} == s.marks + batch;
      RunsOn(s, m, Mark(p, h), s.(marks := s.marks + batch), true);
    }
  }

  /** The upload ends, wherever it is. */
  lemma RunEnds(s: State, t: State)
    requires Runs(s, t, true) && t.uploads.Keys == {0}
    ensures Runs(s, t.(uploads := map[]), true)
  {
    assert t.uploads - {0} == map[];
    RunsOn(s, t, Drop(0), t.(uploads := map[]), true);
  }

  /** One node and the bucket. With `mayFail` every method may stop halfway, as in a
      crash, any read or write may fail, and a journal may be gone. */
  class Node {
    const mayFail: bool
    /** Chunk files and manifests of the node. */
    var cached: set<Hash>
    var local: set<Layer>
    /** Its markers. */
    var marks: set<Hash>
    var layerMarks: set<Layer>
    /** What is in the bucket. */
    var chunks: set<Hash>
    var layers: set<Layer>

    /** A marked chunk is in the bucket, and so are the chunks of every manifest
        that is. */
    ghost predicate Ok()
      reads this
    {
      marks <= chunks && ManifestsComplete(layers, chunks)
    }

    /** The node between two uploads, as a state of the step machine. */
    ghost function Rest(): State
      reads this
    {
      State(cached, marks, chunks, layers, map[])
    }

    /** The node while it uploads `l`. */
    ghost function Busy(l: Layer, confirmed: set<Hash>): State
      reads this
    {
      State(cached, marks, chunks, layers, map[0 := Upload(l, confirmed)])
    }

    constructor (mayFail: bool)
      ensures this.mayFail == mayFail && Ok() && Rest() == Empty()
    {
      this.mayFail := mayFail;
      cached, local, marks, layerMarks, chunks, layers := {}, {}, {}, {}, {}, {};
    }

    /** Trust in old journals ends: some markers go. */
    method ExpireJournals()
      requires Ok()
      modifies this`marks, this`layerMarks
      ensures Ok() && marks <= old(marks) && layerMarks <= old(layerMarks)
      ensures Runs(old(Rest()), Rest(), true)
    {
      var keep: set<Hash> := *;
      var keepLayers: set<Layer> := *;
      marks, layerMarks := marks * keep, layerMarks * keepLayers;
      RunsNowhere(old(Rest()), true);
      RunsOn(old(Rest()), old(Rest()), Expire(keep), Rest(), true);
    }

    /** Brings one chunk to the bucket, unless it is marked. */
    method PushChunk(h: Hash, ghost l: Layer, ghost confirmed: set<Hash>) returns (there: bool, unmarked: bool)
      requires Ok()
      modifies this`chunks
      ensures Ok() && (chunks == old(chunks) || chunks == old(chunks) + {h})
      ensures there ==> h in chunks
      ensures unmarked <==> h !in marks
      ensures !mayFail ==> (there <==> h in marks || h in cached || h in old(chunks))
      ensures Runs(old(Busy(l, confirmed)), Busy(l, if there then confirmed + {h} else confirmed), true)
    {
      ghost var s := Busy(l, confirmed);
      RunsNowhere(s, true);
      if h in marks {
        RunsOn(s, s, Skip(0, h), Busy(l, confirmed + {h}), true);
        return true, false;
      }
      unmarked := true;
      if h in cached {
        there := *;
        there := there || !mayFail;
        if there {
          chunks := chunks + {h};
          RunsOn(s, s, Put(0, h), Busy(l, confirmed + {h}), true);
        }
      } else {
        there := *;
        there := (there || !mayFail) && h in chunks;
        if there { RunsOn(s, s, Probe(0, h), Busy(l, confirmed + {h}), true); }
      }
    }

    /** Marks chunks that are in the bucket; any of the markers may be lost, if
        anything may fail. */
    method MarkPushed(batch: set<Hash>, ghost l: Layer, ghost confirmed: set<Hash>)
      requires Ok() && batch <= chunks && batch <= confirmed
      modifies this`marks
      ensures Ok() && old(marks) <= marks <= old(marks) + batch && (!mayFail ==> batch <= marks)
      ensures Runs(old(Busy(l, confirmed)), Busy(l, confirmed), true)
    {
      var written: set<Hash> := *;
      if !mayFail { written := batch; }
      marks := marks + batch * written;
      MarksRun(old(Busy(l, confirmed)), 0, batch * written);
    }

    /** Brings a layer's chunks to the bucket, and marks them batch by batch.
        `all` are there unless it failed or stopped; with nothing that fails, that is
        so exactly if each can be had, and all are marked. */
    method PushChunks(l: Layer) returns (all: bool, ghost confirmed: set<Hash>)
      requires Ok()
      modifies this`marks, this`chunks
      ensures Ok() && old(chunks) <= chunks && confirmed <= chunks
      ensures all ==> HasChunks(l, confirmed)
      ensures !mayFail ==> (Sourced(l, cached, old(chunks)) ==> all) && confirmed <= marks
      ensures Runs(old(Busy(l, {})), Busy(l, confirmed), true)
    {
      RunsNowhere(Busy(l, {}), true);
      var left := set h | h in l.chunks;
      var batch: set<Hash> := {};
      var failed := false;
      confirmed := {};
      while left != {}
        invariant Ok() && old(chunks) <= chunks && batch <= confirmed <= chunks
        invariant Runs(old(Busy(l, {})), Busy(l, confirmed), true)
        invariant !failed ==> forall h :: h in l.chunks ==> h in left || h in confirmed
        invariant !mayFail ==> confirmed <= marks + batch && (Sourced(l, cached, old(chunks)) ==> !failed)
        invariant forall h :: h in left ==> h in l.chunks
        decreases left
      {
        var h :| h in left;
        ghost var before := Busy(l, confirmed);
        var there, unmarked := PushChunk(h, l, confirmed);
        if !there {
          failed := true;
        } else {
          confirmed := confirmed + {h};
          if unmarked { batch := batch + {h}; }
        }
        RunsJoin(old(Busy(l, {})), before, Busy(l, confirmed), true);
        var full: bool, crash: bool := *, *;
        if mayFail && crash { return false, confirmed; }
        if full {
          before := Busy(l, confirmed);
          MarkPushed(batch, l, confirmed);
          RunsJoin(old(Busy(l, {})), before, Busy(l, confirmed), true);
          batch := {};
        }
        left := left - {h};
      }
      ghost var before := Busy(l, confirmed);
      MarkPushed(batch, l, confirmed);
      RunsJoin(old(Busy(l, {})), before, Busy(l, confirmed), true);
      all := !failed;
    }

    /** One layer: every chunk is tried, in any order; if all are in the bucket,
        its manifest follows. */
    method PushLayer(l: Layer) returns (ok: bool)
      requires Ok()
      modifies this`marks, this`layerMarks, this`chunks, this`layers
      ensures Ok() && old(chunks) <= chunks
      ensures layers == old(layers) || layers == old(layers) + {l}
      ensures ok ==> l in layers
      ensures old(layerMarks) <= layerMarks <= old(layerMarks) + {l}
      ensures !mayFail ==> (l in local && Sourced(l, cached, old(chunks)) ==> ok)
      ensures !mayFail && ok ==> l in layerMarks && HasChunks(l, marks)
      ensures Runs(old(Rest()), Rest(), true)
    {
      RunsNowhere(Rest(), true);
      if l !in local { return false; }
      RunsOn(Rest(), Rest(), Begin(0, l), Busy(l, {}), true);
      ghost var s := Busy(l, {});
      var all, confirmed := PushChunks(l);
      RunsJoin(old(Rest()), s, Busy(l, confirmed), true);
      var put: bool := *;
      if !all || (mayFail && !put) {
        RunEnds(old(Rest()), Busy(l, confirmed));
        return false;
      }
      ghost var before := Busy(l, confirmed);
      layers := layers + {l};
      RunsOn(old(Rest()), before, PutManifest(0), Busy(l, confirmed), true);
      RunEnds(old(Rest()), Busy(l, confirmed));
      ok := *;
      ok := ok || !mayFail;
      var listed: bool := *;
      if ok && (listed || !mayFail) { layerMarks := layerMarks + {l}; }
    }

    /** The layers of a chain the node does not know to be in the bucket; a
        marked one is looked up there. */
    method ScanChain(id: Layer) returns (ok: bool, pending: seq<Layer>)
      ensures ok ==> Scanned(id, None, layers * layerMarks, pending)
      ensures forall k :: 0 <= k < |pending| ==> InChain(id, pending[k])
      ensures ok <==> ChainIn(id, local)
      ensures !mayFail ==> forall l :: l in pending ==> l !in layers * layerMarks
    {
      pending := [];
      var cur := Some(id);
      while cur.Some?
        invariant Scanned(id, cur, layers * layerMarks, pending)
        invariant ChainIn(id, local) <==> (cur.Some? ==> ChainIn(cur.value, local))
        invariant !mayFail ==> forall l :: l in pending ==> l !in layers * layerMarks
        decreases if cur.Some? then 1 + Depth(cur.value) else 0
      {
        var l := cur.value;
        if l !in local { return false, pending; }
        var probed: bool := *;
        var tiered := l in layerMarks && (probed || !mayFail) && l in layers;
        ScanNext(id, l, layers * layerMarks, pending, tiered);
        if !tiered {
          pending := pending + [l];
        }
        cur := l.parent;
      }
      ok := true;
    }

    /** Layers one after the other, as far as it goes. */
    method PushAll(rest: seq<Layer>) returns (ok: bool)
      requires Ok() && OldestFirst(layers, rest)
      modifies this`marks, this`layerMarks, this`chunks, this`layers
      ensures Ok() && old(chunks) <= chunks && old(layers) <= layers
      ensures ok ==> forall l :: l in rest ==> l in layers
      ensures old(ParentsIn(layers)) ==> ParentsIn(layers)
      ensures forall l :: l in layers && l !in old(layers) ==> l in rest
      ensures old(layerMarks) <= layerMarks && (ok && !mayFail ==> forall l :: l in rest ==> l in layerMarks)
      ensures !mayFail && (forall l :: l in rest ==> l in local && Sourced(l, cached, old(chunks))) ==> ok
      ensures Runs(old(Rest()), Rest(), true)
    {
      RunsNowhere(Rest(), true);
      var n := 0;
      while n < |rest|
        invariant 0 <= n <= |rest| && Ok() && old(chunks) <= chunks && old(layers) <= layers
        invariant forall k :: 0 <= k < n ==> rest[k] in layers
        invariant old(ParentsIn(layers)) ==> ParentsIn(layers)
        invariant forall l :: l in layers && l !in old(layers) ==> l in rest
        invariant old(layerMarks) <= layerMarks && (!mayFail ==> forall k :: 0 <= k < n ==> rest[k] in layerMarks)
        invariant Runs(old(Rest()), Rest(), true)
      {
        ghost var before, at := layers, Rest();
        ok := PushLayer(rest[n]);
        RunsJoin(old(Rest()), at, Rest(), true);
        if old(ParentsIn(layers)) { NextKeepsParents(old(layers), before, layers, rest, n); }
        if !ok { return; }
        n := n + 1;
      }
      ok := true;
    }

    /** A layer and all its ancestors that the bucket lacks, oldest first. On
        success the whole chain is there; wherever it stops, no layer comes
        before its parent. */
    method PushChain(id: Layer) returns (ok: bool)
      requires Ok()
      modifies this`marks, this`layerMarks, this`chunks, this`layers
      ensures Ok() && old(chunks) <= chunks && old(layers) <= layers
      ensures ok ==> ChainIn(id, layers)
      ensures !mayFail && ChainIn(id, local) && ChainSourced(id, cached, old(chunks)) ==> ok
      ensures ok && !mayFail ==> ChainIn(id, layerMarks)
      ensures old(ParentsIn(layers)) ==> ParentsIn(layers)
      ensures forall l :: l in layers && l !in old(layers) ==> InChain(id, l)
      ensures Runs(old(Rest()), Rest(), true)
    {
      ExpireJournals();
      var found, pending := ScanChain(id);
      if !found { return false; }
      var rest := Reversed(pending);
      ReversedIsOldestFirst(id, layers * layerMarks, pending);
      ChainInIff(id, local);
      ghost var at := Rest();
      ok := PushAll(rest);
      RunsJoin(old(Rest()), at, Rest(), true);
      ChainInIff(id, layers);
      ChainInIff(id, layerMarks);
    }

    /** Fetches one manifest, and marks its chunks and it. */
    method FetchManifest(l: Layer) returns (ok: bool)
      requires Ok()
      modifies this`local, this`marks, this`layerMarks
      ensures Ok() && old(marks) <= marks && old(layerMarks) <= layerMarks
      ensures local == old(local) || (local == old(local) + {l} && l in layers)
      ensures ok ==> l in local
      ensures !mayFail ==> (ok <==> l in layers) && (!ok ==> local == old(local))
      ensures !mayFail && ok ==> HasChunks(l, marks) && l in layerMarks
      ensures Runs(old(Rest()), Rest(), true)
    {
      RunsNowhere(Rest(), true);
      var fetched: bool, crash: bool := *, *;
      if (mayFail && !fetched) || l !in layers { return false; }
      local := local + {l};
      if mayFail && crash { return false; }
      var written: set<Hash> := *;
      written := if mayFail then (set h | h in l.chunks) * written else set h | h in l.chunks;
      marks := marks + written;
      RunsOn(old(Rest()), old(Rest()), Learn(l, written), Rest(), true);
      ok := *;
      ok := ok || !mayFail;
      if ok { layerMarks := layerMarks + {l}; }
    }

    /** Fetches the manifests the node lacks of a chain. A manifest in the bucket
        says all its chunks are there, so they are marked. */
    method EnsureManifests(id: Layer) returns (ok: bool)
      requires Ok()
      modifies this`local, this`marks, this`layerMarks
      ensures Ok() && old(local) <= local && old(marks) <= marks
      ensures ok ==> ChainIn(id, local)
      ensures forall l :: l in local && l !in old(local) ==> l in layers && InChain(id, l)
      ensures !mayFail ==> (ok <==> ChainIn(id, old(local) + layers))
      ensures !mayFail ==> forall l :: l in local && l !in old(local) ==> HasChunks(l, marks) && l in layerMarks
      ensures Runs(old(Rest()), Rest(), true)
    {
      RunsNowhere(Rest(), true);
      var cur := Some(id);
      while cur.Some?
        invariant Ok() && old(local) <= local && old(marks) <= marks
        invariant forall a :: InChain(id, a) ==> a in local || (cur.Some? && InChain(cur.value, a))
        invariant cur.Some? ==> InChain(id, cur.value)
        invariant forall l :: l in local && l !in old(local) ==> l in layers && InChain(id, l)
        invariant ChainIn(id, old(local) + layers) <==> (cur.Some? ==> ChainIn(cur.value, old(local) + layers))
        invariant !mayFail ==> forall l :: l in local && l !in old(local) ==> HasChunks(l, marks) && l in layerMarks
        invariant Runs(old(Rest()), Rest(), true)
        decreases if cur.Some? then 1 + Depth(cur.value) else 0
      {
        var l := cur.value;
        if l !in local {
          ghost var before := Rest();
          ok := FetchManifest(l);
          RunsJoin(old(Rest()), before, Rest(), true);
          if !ok { return; }
        }
        if l.parent.Some? { ParentInChain(id, l); }
        cur := l.parent;
      }
      ChainInIff(id, local);
      ok := true;
    }
  }
}
