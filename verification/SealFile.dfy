/** Sealing a whole file, a guest's memory dump, into one flat layer. */
module SealFile {
  import opened Wrappers
  import opened Manifests
  import opened Layers
  import opened Tops
  import opened Seal

  /** Every chunk has an entry: zero chunks too. */
  function FileEntry(g: Geometry, off: nat, buf: seq<Byte>): Entry<Digest> {
    if AllZero(buf) then ZeroEntry(off, |buf|) else DataEntry(g, off, buf)
  }

  ghost function EntryOf(g: Geometry, content: seq<Byte>): nat -> Option<Entry<Digest>>
    requires |content| == g.size
  {
    (off: nat) => if off <= g.size then Some(FileEntry(g, off, Slice(g, content, off))) else None
  }

  /** The flat layer of a file's content. */
  ghost function FlatLayer(g: Geometry, content: seq<Byte>): Layer
    requires |content| == g.size
  {
    Manifest(g.chunkSize, g.size, None, Tabulate(g, EntryOf(g, content), ChunkCount(g)))
  }

  lemma FlatOk(g: Geometry, content: seq<Byte>)
    requires |content| == g.size
    ensures LayerOk(g, FlatLayer(g, content))
  {
    TabulateSorted(g, EntryOf(g, content), ChunkCount(g));
  }

  /** The flat layer alone shows the file. */
  lemma FlatShows(g: Geometry, content: seq<Byte>)
    requires |content| == g.size
    ensures ChainOk(g, [FlatLayer(g, content)]) && View(g, [FlatLayer(g, content)]) == content
  {
    var chain := [FlatLayer(g, content)];
    FlatOk(g, content);
    forall off: nat | ChunkOffset(g, off) ensures Slice(g, View(g, chain), off) == Slice(g, content, off) {
      ViewSlice(g, chain, off);
      TabulateLookup(g, EntryOf(g, content), off);
      assert Resolved(chain, off) == Lookup(chain[0].entries, off);
      var buf := Slice(g, content, off);
      if AllZero(buf) { AllZeroIsZeros(buf); }
    }
    EqualByChunks(g, View(g, chain), content);
  }

  /** The flat layer has an entry for every chunk: a zero entry for one that is all
      zeros, else its hash and lengths. */
  lemma FlatEntries(g: Geometry, content: seq<Byte>, off: nat)
    requires |content| == g.size && ChunkOffset(g, off)
    ensures var buf := content[off..off + ChunkLen(g, off)];
            match Lookup(FlatLayer(g, content).entries, off)
            case None => false
            case Some(e) =>
              && e.offset == off && e.rawLen == |buf|
              && if forall i :: 0 <= i < |buf| ==> buf[i] == 0 then e.kind == Zero
                 else e.kind == Data && e.hash == Blake3(buf) && e.compLen == g.compLen(buf)
  {
    FlatOk(g, content);
    TabulateLookup(g, EntryOf(g, content), off);
  }

  /** Files, of any two lengths, make the same layer exactly if they have the
      same content. */
  lemma SameFileSameLayer(g: Geometry, h: Geometry, a: seq<Byte>, b: seq<Byte>)
    requires g.chunkSize == h.chunkSize && g.compLen == h.compLen && |a| == g.size && |b| == h.size
    ensures LayerId(FlatLayer(g, a)) == LayerId(FlatLayer(h, b)) <==> a == b
  {
    if FlatLayer(g, a) == FlatLayer(h, b) {
      assert g == h;
    }
    if g == h {
      FlatShows(g, a);
      FlatShows(g, b);
    }
  }

  /** One chunk of the file: what its extents say, zeros in its holes. */
  method FileChunk(g: Geometry, t: Top, extents: seq<(nat, nat)>, off: nat) returns (buf: seq<Byte>)
    requires TopOk(t) && |t.data| == g.size && ExtentsOf(extents, t, g.size) && off <= g.size
    ensures buf == Slice(g, t.data, off)
  {
    forall k | 0 <= k < |extents| ensures extents[k].1 <= |t.data| {}
    buf := OverlayExtents(t, extents, off, ChunkLen(g, off), []);
    forall k | 0 <= k < |buf| ensures buf[k] == Slice(g, t.data, off)[k] {
      ExtentsWithin(extents, t, g.size, off + k);
    }
  }

  /** Seals a file: the layer shows its content, its chunks are kept, and only
      then the layer is. Any read, admission or commit may fail. */
  method SealWhole(node: Node, g: Geometry, t: Top) returns (r: Result<Layer, Error>)
    requires TopOk(t) && |t.data| == g.size
    modifies node
    ensures old(node.chunks) <= node.chunks
    ensures node.layers == old(node.layers) + (if r.Ok? then {r.value} else {})
    ensures r.Ok? ==> r.value == FlatLayer(g, t.data)
    ensures r.Ok? ==> forall e :: e in r.value.entries && e.kind.Data? ==> e.hash in node.chunks
    ensures r.Err? ==> r.error == IoFailed && node.mayFail
  {
    var extents := DataExtents(t, g.size);
    var pending := new Pending(false);
    var entries: seq<Entry<Digest>> := [];
    var ci := 0;
    while ci < ChunkCount(g)
      invariant 0 <= ci <= ChunkCount(g) && entries == Tabulate(g, EntryOf(g, t.data), ci)
      invariant old(node.chunks) <= node.chunks && node.layers == old(node.layers)
      invariant InReach(entries, node.chunks, pending.chunks)
    {
      ChunkIndex(g, ci);
      var off := ci * g.chunkSize;
      if node.mayFail {
        var read: bool := *;
        if !read { return Err(IoFailed); }
      }
      var buf := FileChunk(g, t, extents, off);
      if AllZero(buf) {
        entries := entries + [ZeroEntry(off, |buf|)];
      } else {
        var h := Blake3(buf);
        if h !in node.chunks {
          var pushed := pending.Push(node, h, |buf|);
          if pushed.Some? { return Err(pushed.value); }
        }
        entries := entries + [DataEntry(g, off, buf)];
      }
      ci := ci + 1;
    }
    var flushed := pending.Flush(node);
    if flushed.Some? { return Err(flushed.value); }
    if node.mayFail {
      var committed: bool := *;
      if !committed { return Err(IoFailed); }
    }
    var layer := Manifest(g.chunkSize, g.size, None, entries);
    node.layers := node.layers + {layer};
    return Ok(layer);
  }
}
