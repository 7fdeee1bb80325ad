/** What a seal keeps: the disk's bytes. What it makes: the smallest layer that
    shows them, the same one whatever the disk went through. */
module SealTheorems {
  import opened Wrappers
  import opened Manifests
  import opened Layers
  import opened Tops
  import opened Seal

  lemma ComposedIsSlice(g: Geometry, chain: seq<Layer>, t: Top, off: nat)
    requires ChainOk(g, chain) && TopOk(t) && ChunkOffset(g, off)
    ensures Slice(g, Overlay(t, View(g, chain)), off) == Composed(g, chain, t, off)
  {
    ViewSlice(g, chain, off);
    forall k | 0 <= k < ChunkLen(g, off)
      ensures Slice(g, Overlay(t, View(g, chain)), off)[k] == Composed(g, chain, t, off)[k]
    {
      assert ViewChunk(g, chain, off)[k] == Slice(g, View(g, chain), off)[k];
    }
  }

  lemma UntouchedSlice(g: Geometry, chain: seq<Layer>, t: Top, off: nat)
    requires ChainOk(g, chain) && TopOk(t) && ChunkOffset(g, off) && !Touched(g, t, off)
    ensures Composed(g, chain, t, off) == ViewChunk(g, chain, off)
  {
  }

  /** A chunk reads back as what was classified, through its entry or, without
      one, through the parent. */
  lemma ClassifyReads(g: Geometry, off: nat, buf: seq<Byte>, parent: Option<Entry<Digest>>)
    requires |buf| == ChunkLen(g, off) && (parent.Some? ==> EntryOk(g, parent.value))
    ensures var e := Classify(g, off, buf, parent);
            ChunkBytes(g, if e.Some? then e else parent, off) == buf
  {
    if AllZero(buf) { AllZeroIsZeros(buf); }
  }

  lemma ResolvedSnoc(shared: seq<Layer>, m: Layer, off: nat)
    ensures Resolved(shared + [m], off) ==
            if Lookup(m.entries, off).Some? then Lookup(m.entries, off) else Resolved(shared, off)
  {
    assert (shared + [m])[..|shared|] == shared;
  }

  lemma SealedLookup(g: Geometry, shared: seq<Layer>, own: Option<Layer>, t: Top, off: nat)
    requires ChainOk(g, Chain(shared, own)) && ChainOk(g, shared) && TopOk(t) && ChunkOffset(g, off)
    ensures Lookup(Sealed(g, shared, own, t).entries, off) == NewEntry(g, shared, own, t, off)
  {
    SealedPlaced(g, shared, own, t);
    TabulateLookup(g, (o: nat) => NewEntry(g, shared, own, t, o), off);
  }

  lemma SealedOk(g: Geometry, shared: seq<Layer>, own: Option<Layer>, t: Top)
    requires ChainOk(g, Chain(shared, own)) && ChainOk(g, shared) && TopOk(t)
    ensures LayerOk(g, Sealed(g, shared, own, t))
    ensures Sealed(g, shared, own, t).parent == ParentId(shared)
    ensures ChainOk(g, shared + [Sealed(g, shared, own, t)])
  {
    var f := (o: nat) => NewEntry(g, shared, own, t, o);
    SealedPlaced(g, shared, own, t);
    TabulateSorted(g, f, ChunkCount(g));
    forall e | e in Sealed(g, shared, own, t).entries ensures EntryOk(g, e) {
      NewEntryOk(g, shared, own, t, e.offset);
    }
  }

  lemma SealedChunk(g: Geometry, shared: seq<Layer>, own: Option<Layer>, t: Top, off: nat)
    requires ChainOk(g, Chain(shared, own)) && ChainOk(g, shared) && TopOk(t) && ChunkOffset(g, off)
    ensures ChainOk(g, shared + [Sealed(g, shared, own, t)])
    ensures ViewChunk(g, shared + [Sealed(g, shared, own, t)], off) == Composed(g, Chain(shared, own), t, off)
  {
    SealedOk(g, shared, own, t);
    SealedLookup(g, shared, own, t, off);
    ResolvedSnoc(shared, Sealed(g, shared, own, t), off);
    ResolvedOk(g, shared, off);
    if Touched(g, t, off) {
      ClassifyReads(g, off, Composed(g, Chain(shared, own), t, off), Resolved(shared, off));
    } else {
      UntouchedSlice(g, Chain(shared, own), t, off);
      if own.Some? { ResolvedSnoc(shared, own.value, off); }
    }
  }

  /** The sealed layer over the shared prefix shows the top over the old chain. */
  lemma SealPreservesView(g: Geometry, shared: seq<Layer>, own: Option<Layer>, t: Top)
    requires ChainOk(g, Chain(shared, own)) && ChainOk(g, shared) && TopOk(t)
    ensures LayerOk(g, Sealed(g, shared, own, t)) && Sealed(g, shared, own, t).parent == ParentId(shared)
    ensures ChainOk(g, shared + [Sealed(g, shared, own, t)])
    ensures View(g, shared + [Sealed(g, shared, own, t)]) == Overlay(t, View(g, Chain(shared, own)))
  {
    SealedOk(g, shared, own, t);
    var a, b := View(g, shared + [Sealed(g, shared, own, t)]), Overlay(t, View(g, Chain(shared, own)));
    forall off | ChunkOffset(g, off) ensures Slice(g, a, off) == Slice(g, b, off) {
      SealedChunk(g, shared, own, t, off);
      ViewSlice(g, shared + [Sealed(g, shared, own, t)], off);
      ComposedIsSlice(g, Chain(shared, own), t, off);
    }
    EqualByChunks(g, a, b);
  }

  /** A data entry of a touched chunk carries the hash and the lengths of what the
      disk has there. */
  lemma SealedEntryIs(g: Geometry, shared: seq<Layer>, own: Option<Layer>, t: Top, off: nat)
    requires ChainOk(g, Chain(shared, own)) && ChainOk(g, shared) && TopOk(t) && ChunkOffset(g, off)
    requires Touched(g, t, off) && IsData(Lookup(Sealed(g, shared, own, t).entries, off))
    ensures var e := Lookup(Sealed(g, shared, own, t).entries, off).value;
            var disk := Overlay(t, View(g, Chain(shared, own)));
            var buf := disk[off..off + ChunkLen(g, off)];
            && e.offset == off && e.hash == Blake3(buf) && e.rawLen == |buf| == ChunkLen(g, off)
            && e.compLen == g.compLen(buf)
  {
    SealedLookup(g, shared, own, t, off);
    ComposedIsSlice(g, Chain(shared, own), t, off);
  }

  /** Every data chunk the top touched is there. */
  ghost predicate TouchedKept(g: Geometry, t: Top, m: Layer, chunks: set<Digest>) {
    forall e :: e in m.entries && e.kind.Data? && Touched(g, t, e.offset) ==> e.hash in chunks
  }

  /** A seal that kept the chunks it touched leaves nothing unreadable: what the
      prefix and the old chain need is all the new chain needs besides. */
  lemma SealKeepsAvailable(g: Geometry, shared: seq<Layer>, own: Option<Layer>, t: Top, chunks: set<Digest>)
    requires ChainOk(g, Chain(shared, own)) && ChainOk(g, shared) && TopOk(t)
    requires Available(chunks, shared) && Available(chunks, Chain(shared, own))
    requires TouchedKept(g, t, Sealed(g, shared, own, t), chunks)
    ensures Available(chunks, shared + [Sealed(g, shared, own, t)])
  {
    var m := Sealed(g, shared, own, t);
    SealedOk(g, shared, own, t);
    forall off | IsData(Resolved(shared + [m], off)) ensures Resolved(shared + [m], off).value.hash in chunks {
      ResolvedSnoc(shared, m, off);
      if Lookup(m.entries, off).Some? {
        LookupFound(m.entries, off);
        SealedLookup(g, shared, own, t, off);
        if !Touched(g, t, off) { ResolvedSnoc(shared, own.value, off); }
      }
    }
  }

  lemma AvailableMore(chunks: set<Digest>, more: set<Digest>, chain: seq<Layer>)
    requires Available(chunks, chain) && chunks <= more
    ensures Available(more, chain)
  {
  }

  // ---- sealing again ----------------------------------------------------------------

  /** A top that a crash left over the layer sealed from it seals to that layer. */
  lemma ResealIsSame(g: Geometry, shared: seq<Layer>, own: Option<Layer>, t: Top)
    requires ChainOk(g, Chain(shared, own)) && ChainOk(g, shared) && TopOk(t)
    ensures ChainOk(g, Chain(shared, Some(Sealed(g, shared, own, t))))
    ensures Sealed(g, shared, Some(Sealed(g, shared, own, t)), t) == Sealed(g, shared, own, t)
  {
    SealedOk(g, shared, own, t);
    var s := Sealed(g, shared, own, t);
    forall off: nat | ChunkOffset(g, off)
      ensures NewEntry(g, shared, Some(s), t, off) == NewEntry(g, shared, own, t, off)
    {
      SealedLookup(g, shared, own, t, off);
      SealedChunk(g, shared, own, t, off);
      assert Composed(g, Chain(shared, Some(s)), t, off) == Composed(g, Chain(shared, own), t, off);
    }
    TabulateSame(g, (o: nat) => NewEntry(g, shared, Some(s), t, o), (o: nat) => NewEntry(g, shared, own, t, o),
                 ChunkCount(g));
  }

  /** An untouched top seals to the private layer it merges. */
  lemma UntouchedIsSame(g: Geometry, shared: seq<Layer>, own: Layer, t: Top)
    requires ChainOk(g, shared) && LayerOk(g, own) && own.parent == ParentId(shared) && TopOk(t)
    requires forall i: nat :: !Allocated(t, i)
    ensures ChainOk(g, Chain(shared, Some(own))) && Sealed(g, shared, Some(own), t) == own
  {
    var s := Sealed(g, shared, Some(own), t);
    SealedOk(g, shared, Some(own), t);
    forall off | ChunkOffset(g, off) ensures Lookup(s.entries, off) == Lookup(own.entries, off) {
      SealedLookup(g, shared, Some(own), t, off);
    }
    TablesEqualByChunk(g, s.entries, own.entries);
  }

  // ---- the canonical layer -------------------------------------------------------------

  ghost function CanonicalEntry(g: Geometry, shared: seq<Layer>, bytes: seq<Byte>, off: nat): Option<Entry<Digest>>
    requires |bytes| == g.size
  {
    if off < g.size then Classify(g, off, Slice(g, bytes, off), Resolved(shared, off)) else None
  }

  /** The layer over `shared` that shows `bytes`, chunk by chunk. */
  ghost function Canonical(g: Geometry, shared: seq<Layer>, bytes: seq<Byte>): Layer
    requires |bytes| == g.size
  {
    Manifest(g.chunkSize, g.size, ParentId(shared),
             Tabulate(g, (off: nat) => CanonicalEntry(g, shared, bytes, off), ChunkCount(g)))
  }

  ghost predicate OwnCanonical(g: Geometry, shared: seq<Layer>, own: Option<Layer>)
    requires ChainOk(g, Chain(shared, own))
  {
    own.Some? ==> own.value == Canonical(g, shared, View(g, Chain(shared, own)))
  }

  /** No data chunk that the prefix shows is all zeros. */
  ghost predicate DataNonzero(g: Geometry, shared: seq<Layer>) {
    forall off: nat {:trigger Resolved(shared, off)} :: ChunkOffset(g, off) && IsData(Resolved(shared, off)) ==>
      !AllZero(Resolved(shared, off).value.hash.preimage)
  }

  lemma CanonicalPlaced(g: Geometry, shared: seq<Layer>, bytes: seq<Byte>)
    requires |bytes| == g.size
    ensures Placed(g, (off: nat) => CanonicalEntry(g, shared, bytes, off))
  {
  }

  lemma CanonicalLookup(g: Geometry, shared: seq<Layer>, bytes: seq<Byte>, off: nat)
    requires |bytes| == g.size && ChunkOffset(g, off)
    ensures Lookup(Canonical(g, shared, bytes).entries, off) == CanonicalEntry(g, shared, bytes, off)
  {
    CanonicalPlaced(g, shared, bytes);
    TabulateLookup(g, (o: nat) => CanonicalEntry(g, shared, bytes, o), off);
  }

  /** The canonical layer has an entry exactly where the bytes differ from what
      the prefix shows. */
  lemma CanonicalEntryIff(g: Geometry, shared: seq<Layer>, bytes: seq<Byte>, off: nat)
    requires |bytes| == g.size && ChunkOffset(g, off) && ChainOk(g, shared) && DataNonzero(g, shared)
    ensures CanonicalEntry(g, shared, bytes, off).Some? <==> Slice(g, bytes, off) != ViewChunk(g, shared, off)
  {
    ResolvedOk(g, shared, off);
    var buf := Slice(g, bytes, off);
    if AllZero(buf) { AllZeroIsZeros(buf); }
  }

  /** Over a prefix without all-zero data, a seal makes the canonical layer of
      the disk's content. */
  lemma SealIsCanonical(g: Geometry, shared: seq<Layer>, own: Option<Layer>, t: Top)
    requires ChainOk(g, Chain(shared, own)) && ChainOk(g, shared) && TopOk(t)
    requires DataNonzero(g, shared) && OwnCanonical(g, shared, own)
    ensures Sealed(g, shared, own, t) == Canonical(g, shared, Overlay(t, View(g, Chain(shared, own))))
  {
    var chain := Chain(shared, own);
    var bytes := Overlay(t, View(g, chain));
    forall off: nat | ChunkOffset(g, off)
      ensures NewEntry(g, shared, own, t, off) == CanonicalEntry(g, shared, bytes, off)
    {
      ComposedIsSlice(g, chain, t, off);
      if !Touched(g, t, off) {
        UntouchedSlice(g, chain, t, off);
        ViewSlice(g, chain, off);
        if own.Some? {
          CanonicalLookup(g, shared, View(g, chain), off);
        } else {
          CanonicalEntryIff(g, shared, bytes, off);
        }
      }
    }
    TabulateSame(g, (o: nat) => NewEntry(g, shared, own, t, o), (o: nat) => CanonicalEntry(g, shared, bytes, o),
                 ChunkCount(g));
  }

  /** The new layer's owner is canonical again. */
  lemma SealKeepsCanonical(g: Geometry, shared: seq<Layer>, own: Option<Layer>, t: Top)
    requires ChainOk(g, Chain(shared, own)) && ChainOk(g, shared) && TopOk(t)
    requires DataNonzero(g, shared) && OwnCanonical(g, shared, own)
    ensures ChainOk(g, Chain(shared, Some(Sealed(g, shared, own, t))))
    ensures OwnCanonical(g, shared, Some(Sealed(g, shared, own, t)))
  {
    SealPreservesView(g, shared, own, t);
    SealIsCanonical(g, shared, own, t);
  }

  /** No layer over the prefix that shows the same disk goes without an entry
      the sealed one has. */
  lemma SealIsSmallest(g: Geometry, shared: seq<Layer>, own: Option<Layer>, t: Top, other: Layer, off: nat)
    requires ChainOk(g, Chain(shared, own)) && ChainOk(g, shared) && TopOk(t)
    requires DataNonzero(g, shared) && OwnCanonical(g, shared, own)
    requires LayerOk(g, other) && ChunkOffset(g, off)
    requires View(g, shared + [other]) == Overlay(t, View(g, Chain(shared, own)))
    ensures Lookup(Sealed(g, shared, own, t).entries, off).Some? ==> Lookup(other.entries, off).Some?
  {
    var bytes := Overlay(t, View(g, Chain(shared, own)));
    SealIsCanonical(g, shared, own, t);
    CanonicalLookup(g, shared, bytes, off);
    CanonicalEntryIff(g, shared, bytes, off);
    ViewSlice(g, shared + [other], off);
    ResolvedSnoc(shared, other, off);
  }

  // ---- independence of the history ----------------------------------------------------------

  /** Tops that show the same disk over the prefix seal to the same layer. */
  ghost predicate HistoryIndependent(g: Geometry, shared: seq<Layer>)
    requires ChainOk(g, shared)
  {
    forall t: Top, u: Top ::
      TopOk(t) && TopOk(u) && Overlay(t, View(g, shared)) == Overlay(u, View(g, shared)) ==>
        Sealed(g, shared, None, t) == Sealed(g, shared, None, u)
  }

  /** A top of zeros over the chunk at `off`. */
  ghost function ZerosAt(g: Geometry, off: nat): Top {
    Top(Zeros(g.size), seq(g.size, i => off <= i < off + ChunkLen(g, off)))
  }

  /** Zeros over a chunk that shows zeros change nothing. */
  lemma ZerosShow(g: Geometry, shared: seq<Layer>, off: nat)
    requires ChainOk(g, shared) && ChunkOffset(g, off) && AllZero(ViewChunk(g, shared, off))
    ensures TopOk(ZerosAt(g, off)) && AllZero(Composed(g, shared, ZerosAt(g, off), off))
    ensures Overlay(ZerosAt(g, off), View(g, shared)) == Overlay(Fresh(g.size), View(g, shared))
  {
    var base := View(g, shared);
    ViewSlice(g, shared, off);
    forall i | 0 <= i < g.size ensures Overlay(Fresh(g.size), base)[i] == Overlay(ZerosAt(g, off), base)[i] {
      if off <= i < off + ChunkLen(g, off) {
        assert base[i] == Slice(g, base, off)[i - off];
      }
    }
  }

  /** Where the prefix has a data chunk of zeros, zeros written over it leave a
      `zero` entry that an untouched disk, which shows the same, has not. */
  lemma ZeroChunkIsRemembered(g: Geometry, shared: seq<Layer>, off: nat)
    requires ChainOk(g, shared) && ChunkOffset(g, off)
    requires IsData(Resolved(shared, off)) && AllZero(Resolved(shared, off).value.hash.preimage)
    ensures !HistoryIndependent(g, shared)
  {
    ResolvedOk(g, shared, off);
    var t, u := Fresh(g.size), ZerosAt(g, off);
    ZerosShow(g, shared, off);
    assert Allocated(u, off);
    assert Touched(g, u, off);
    SealedLookup(g, shared, None, t, off);
    SealedLookup(g, shared, None, u, off);
    assert Sealed(g, shared, None, t) != Sealed(g, shared, None, u);
  }

  /** The seal of a disk depends on its content alone if and only if no data
      chunk of the shared prefix is all zeros. */
  lemma HistoryIndependentIff(g: Geometry, shared: seq<Layer>)
    requires ChainOk(g, shared)
    ensures HistoryIndependent(g, shared) <==> DataNonzero(g, shared)
  {
    if DataNonzero(g, shared) {
      forall t: Top, u: Top | TopOk(t) && TopOk(u) && Overlay(t, View(g, shared)) == Overlay(u, View(g, shared))
        ensures Sealed(g, shared, None, t) == Sealed(g, shared, None, u)
      {
        SealIsCanonical(g, shared, None, t);
        SealIsCanonical(g, shared, None, u);
      }
    } else {
      var off: nat :| ChunkOffset(g, off) && IsData(Resolved(shared, off))
                      && AllZero(Resolved(shared, off).value.hash.preimage);
      ZeroChunkIsRemembered(g, shared, off);
    }
  }

  ghost predicate LayerNonzero(m: Layer) {
    forall e :: e in m.entries && e.kind.Data? && e.hash.Blake3? ==> !AllZero(e.hash.preimage)
  }

  /** A seal never makes a data chunk of zeros: the condition holds of every
      chain whose layers were sealed. */
  lemma SealedNonzero(g: Geometry, shared: seq<Layer>, own: Option<Layer>, t: Top)
    requires ChainOk(g, Chain(shared, own)) && ChainOk(g, shared) && TopOk(t)
    requires own.Some? ==> LayerNonzero(own.value)
    ensures LayerNonzero(Sealed(g, shared, own, t))
  {
    var f := (o: nat) => NewEntry(g, shared, own, t, o);
    SealedPlaced(g, shared, own, t);
    TabulateSorted(g, f, ChunkCount(g));
    forall e | e in Sealed(g, shared, own, t).entries && e.kind.Data? && e.hash.Blake3?
      ensures !AllZero(e.hash.preimage)
    {
      assert NewEntry(g, shared, own, t, e.offset) == Some(e);
      if !Touched(g, t, e.offset) { LookupFound(own.value.entries, e.offset); }
    }
  }

  lemma {:induction false} ChainNonzero(g: Geometry, chain: seq<Layer>)
    requires forall m :: m in chain ==> LayerNonzero(m)
    ensures DataNonzero(g, chain)
  {
    if |chain| > 0 {
      var init, last := chain[..|chain| - 1], chain[|chain| - 1];
      ChainNonzero(g, init);
      assert chain == init + [last];
      forall off: nat | ChunkOffset(g, off) && IsData(Resolved(chain, off))
        ensures !AllZero(Resolved(chain, off).value.hash.preimage)
      {
        ResolvedSnoc(init, last, off);
        if Lookup(last.entries, off).Some? {
          LookupFound(last.entries, off);
          assert last in chain && Resolved(chain, off).value in last.entries;
        } else {
          assert IsData(Resolved(init, off));
        }
      }
    }
  }
}
