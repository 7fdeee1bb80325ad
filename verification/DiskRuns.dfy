/** A disk over its whole life: opened, written, discarded, sealed, and sealed
    halfway by a node that dies. A seal commits in order: the manifest, the row
    that names it, the top's deletion, the replaced manifest's deletion. */
module DiskRuns {
  import opened Wrappers
  import opened Arithmetic
  import opened Layers
  import opened Tops
  import opened Seal
  import opened SealTheorems

  /** The row's chain, how much of it is shared, the top file if there is one,
      and the manifests on the node's disk. */
  datatype Disk = Disk(chain: seq<Layer>, sharedDepth: nat, top: Option<Top>, layers: set<Layer>)

  ghost function Depth(d: Disk): nat {
    if d.sharedDepth < |d.chain| then d.sharedDepth else |d.chain|
  }

  ghost function Shared(d: Disk): seq<Layer> {
    d.chain[..Depth(d)]
  }

  ghost function Own(d: Disk): Option<Layer> {
    if |d.chain| > Depth(d) then Some(d.chain[|d.chain| - 1]) else None
  }

  /** Each layer's parent is the layer before it. */
  ghost predicate Linked(chain: seq<Layer>) {
    forall i :: 0 < i < |chain| ==> chain[i].parent == Some(LayerId(chain[i - 1]))
  }

  ghost predicate Readable(g: Geometry, d: Disk) {
    && ChainOk(g, d.chain)
    && (d.top.Some? ==> TopOk(d.top.value) && |d.top.value.data| == g.size)
  }

  /** What the guest reads: the top over the row's chain. */
  ghost function Content(g: Geometry, d: Disk): (r: seq<Byte>)
    requires Readable(g, d)
    ensures |r| == g.size
  {
    if d.top.Some? then Overlay(d.top.value, View(g, d.chain)) else View(g, d.chain)
  }

  /** A sound disk: the row's layers are there, at most one of them is its own,
      and that one is the canonical layer of what the chain shows. */
  ghost predicate Inv(g: Geometry, d: Disk) {
    && Readable(g, d)
    && Linked(d.chain)
    && d.sharedDepth <= |d.chain| <= d.sharedDepth + 1
    && (forall m :: m in d.chain ==> m in d.layers)
    && DataNonzero(g, Shared(d))
    && d.chain == Chain(Shared(d), Own(d))
    && OwnCanonical(g, Shared(d), Own(d))
  }

  /** The layer a seal of the disk makes. */
  ghost function NewLayer(g: Geometry, d: Disk): Layer
    requires Readable(g, d) && d.top.Some? && d.chain == Chain(Shared(d), Own(d))
  {
    Sealed(g, Shared(d), Own(d), d.top.value)
  }

  /** The disk after the first `n` of a seal's four commit steps. A disk without
      a top is sealed already. */
  ghost function SealSteps(g: Geometry, d: Disk, n: nat): Disk
    requires Readable(g, d) && d.chain == Chain(Shared(d), Own(d))
  {
    if d.top.None? || n == 0 then d
    else
      var next := NewLayer(g, d);
      var replaced := Own(d);
      var layers := d.layers + {next};
      Disk(if n >= 2 then Shared(d) + [next] else d.chain,
           d.sharedDepth,
           if n >= 3 then None else d.top,
           if n >= 4 && replaced.Some? && replaced.value != next then layers - {replaced.value} else layers)
  }

  // ---- parents come first ---------------------------------------------------------

  ghost function Rank(m: Layer): nat {
    match m.parent
    case None => 0
    case Some(p) => 1 + Rank(p.layer)
  }

  lemma {:induction false} RanksGrow(chain: seq<Layer>, i: nat, j: nat)
    requires Linked(chain) && i <= j < |chain|
    ensures Rank(chain[j]) == Rank(chain[i]) + j - i
    decreases j
  {
    if i < j {
      RanksGrow(chain, i, j - 1);
      assert chain[j].parent == Some(LayerId(chain[j - 1]));
    }
  }

  /** A layer is never among those below it. */
  lemma OwnIsNotShared(shared: seq<Layer>, own: Layer)
    requires Linked(shared) && own.parent == ParentId(shared)
    ensures own !in shared
  {
    if own in shared {
      var i :| 0 <= i < |shared| && shared[i] == own;
      RanksGrow(shared, i, |shared| - 1);
    }
  }

  // ---- crash points ------------------------------------------------------------------

  lemma SharedAfter(d: Disk, next: Layer, top: Option<Top>, layers: set<Layer>)
    requires d.sharedDepth <= |d.chain|
    ensures var e := Disk(Shared(d) + [next], d.sharedDepth, top, layers);
            Depth(e) == d.sharedDepth && Shared(e) == Shared(d) && Own(e) == Some(next)
            && e.chain == Chain(Shared(e), Own(e))
  {
    var e := Disk(Shared(d) + [next], d.sharedDepth, top, layers);
    assert e.chain[..d.sharedDepth] == Shared(d);
  }

  lemma NewChainLinked(g: Geometry, d: Disk)
    requires Inv(g, d) && d.top.Some?
    ensures Linked(Shared(d) + [NewLayer(g, d)])
    ensures Own(d).Some? ==> Own(d).value !in Shared(d)
  {
    SealedOk(g, Shared(d), Own(d), d.top.value);
    var chain := Shared(d) + [NewLayer(g, d)];
    forall i | 0 < i < |chain| ensures chain[i].parent == Some(LayerId(chain[i - 1])) {
      if i < |Shared(d)| {
        assert chain[i] == d.chain[i] && chain[i - 1] == d.chain[i - 1];
      }
    }
    if Own(d).Some? {
      assert d.chain[|d.chain| - 1] == Own(d).value;
      assert Linked(Shared(d));
      if |Shared(d)| > 0 { OwnIsNotShared(Shared(d), Own(d).value); }
    }
  }

  lemma OverlayTwice(t: Top, base: seq<Byte>)
    requires TopOk(t) && |t.data| == |base|
    ensures Overlay(t, Overlay(t, base)) == Overlay(t, base)
  {
  }

  /** From the row's commit on the chain shows what the top showed over it. */
  lemma NewRowIsSound(g: Geometry, d: Disk, n: nat)
    requires Inv(g, d) && d.top.Some? && n >= 2
    ensures Inv(g, SealSteps(g, d, n)) && Shared(SealSteps(g, d, n)) == Shared(d)
    ensures Content(g, SealSteps(g, d, n)) == Content(g, d)
  {
    var e := SealSteps(g, d, n);
    var t, next := d.top.value, NewLayer(g, d);
    NewChainLinked(g, d);
    SealPreservesView(g, Shared(d), Own(d), t);
    SealKeepsCanonical(g, Shared(d), Own(d), t);
    SharedAfter(d, next, e.top, e.layers);
    OverlayTwice(t, View(g, d.chain));
    assert View(g, e.chain) == Overlay(t, View(g, d.chain));
  }

  /** Wherever a seal stops, the disk is sound, shows what it showed, and keeps
      its shared prefix. */
  lemma SealCrashSafe(g: Geometry, d: Disk, n: nat)
    requires Inv(g, d)
    ensures Inv(g, SealSteps(g, d, n))
    ensures Content(g, SealSteps(g, d, n)) == Content(g, d)
    ensures Shared(SealSteps(g, d, n)) == Shared(d)
  {
    if d.top.Some? && n >= 2 {
      NewRowIsSound(g, d, n);
    } else if d.top.Some? && n == 1 {
      var e := SealSteps(g, d, n);
      assert Shared(e) == Shared(d) && Own(e) == Own(d);
    }
  }

  /** Wherever a seal that kept the chunks it touched stops, every chunk the row's
      chain needs can be had, if those of the old chain and of its shared prefix
      could. */
  lemma SealStaysReadable(g: Geometry, d: Disk, n: nat, chunks: set<Digest>)
    requires Readable(g, d) && d.chain == Chain(Shared(d), Own(d)) && d.top.Some?
    requires Available(chunks, Shared(d)) && Available(chunks, d.chain)
    requires TouchedKept(g, d.top.value, NewLayer(g, d), chunks)
    ensures Available(chunks, SealSteps(g, d, n).chain)
  {
    if n >= 2 { SealKeepsAvailable(g, Shared(d), Own(d), d.top.value, chunks); }
  }

  /** What a seal that lives does: the row names the new layer over the shared ones,
      the top is gone, and of the manifests the new one came and the replaced one
      went. */
  lemma SealCommits(g: Geometry, d: Disk)
    requires Inv(g, d) && d.top.Some?
    ensures var (e, next) := (SealSteps(g, d, 4), NewLayer(g, d));
            && Shared(e) == Shared(d) && Own(e) == Some(next) && e.top.None?
            && (forall m :: m in e.layers <==> m == next || (m in d.layers && Own(d) != Some(m)))
  {
    SharedAfter(d, NewLayer(g, d), None, SealSteps(g, d, 4).layers);
  }

  /** Sealing what a crashed seal left makes the layer the crashed one made. */
  lemma SealAgainIsSame(g: Geometry, d: Disk, n: nat)
    requires Inv(g, d) && d.top.Some? && n <= 2
    ensures Inv(g, SealSteps(g, d, n)) && NewLayer(g, SealSteps(g, d, n)) == NewLayer(g, d)
  {
    SealCrashSafe(g, d, n);
    if n == 2 {
      SharedAfter(d, NewLayer(g, d), d.top, d.layers + {NewLayer(g, d)});
      ResealIsSame(g, Shared(d), Own(d), d.top.value);
    } else {
      var e := SealSteps(g, d, n);
      assert Shared(e) == Shared(d) && Own(e) == Own(d);
    }
  }

  /** The same of chunks that only became more. */
  lemma KeptReadable(g: Geometry, d: Disk, n: nat, before: set<Digest>, chunks: set<Digest>)
    requires Readable(g, d) && d.chain == Chain(Shared(d), Own(d)) && d.top.Some? && before <= chunks
    requires n > 0 ==> TouchedKept(g, d.top.value, NewLayer(g, d), chunks)
    ensures Available(before, Shared(d)) && Available(before, d.chain) ==>
              Available(chunks, SealSteps(g, d, n).chain)
  {
    if Available(before, Shared(d)) && Available(before, d.chain) {
      AvailableMore(before, chunks, Shared(d));
      AvailableMore(before, chunks, d.chain);
      if n > 0 { SealStaysReadable(g, d, n, chunks); }
    }
  }

  lemma OwnMerges(g: Geometry, d: Disk)
    requires Readable(g, d)
    ensures MergeOk(g, d.chain, Own(d))
  {
    if Own(d).Some? { assert Own(d).value in d.chain; }
  }

  // ---- the service's seal ----------------------------------------------------------------

  datatype SealFailure = Failed(error: Error) | ChainShape | EmptyChain | Died

  /** A node's one disk. */
  class DiskService {
    const node: Node
    var chain: seq<Layer>
    var sharedDepth: nat
    var top: Option<Top>

    constructor (node: Node, chain: seq<Layer>)
      ensures this.node == node && this.chain == chain && sharedDepth == |chain| && top == None
    {
      this.node, this.chain, sharedDepth, top := node, chain, |chain|, None;
    }

    ghost function State(): Disk
      reads this, node
    {
      Disk(chain, sharedDepth, top, node.layers)
    }

    /** The commit steps after the manifest's: the row, the top, the replaced
        manifest. */
    method Commit(next: Layer, depth: nat, lifetime: nat) returns (steps: nat)
      requires lifetime > 0 && depth <= |chain|
      modifies this, node`layers
      ensures steps == if lifetime < 4 then lifetime else 4
      ensures chain == (if steps >= 2 then old(chain)[..depth] + [next] else old(chain))
      ensures top == (if steps >= 3 then None else old(top)) && sharedDepth == old(sharedDepth)
      ensures node.layers ==
              if steps == 4 && |old(chain)| > depth && old(chain)[|old(chain)| - 1] != next then
                old(node.layers) - {old(chain)[|old(chain)| - 1]}
              else old(node.layers)
    {
      if lifetime == 1 { return 1; }
      var oldPrivate := if |chain| > depth then Some(chain[|chain| - 1]) else None;
      chain := chain[..depth] + [next];
      if lifetime == 2 { return 2; }
      top := None;
      if lifetime == 3 { return 3; }
      if oldPrivate.Some? && oldPrivate.value != next {
        node.layers := node.layers - {oldPrivate.value};
      }
      return 4;
    }

    /** Seals a disk that has its top. */
    method SealServed(g: Geometry, depth: nat, merged: Option<Layer>, lifetime: nat, mayCancel: bool)
      returns (r: Result<Layer, SealFailure>, steps: nat)
      requires Readable(g, State()) && top.Some? && depth == Depth(State()) && |chain| <= depth + 1
      requires merged == Own(State())
      modifies this, node
      ensures State() == SealSteps(g, old(State()), steps)
      ensures r.Ok? ==> steps == 4 && chain == old(Shared(State())) + [r.value] && top.None?
      ensures r.Err? ==> r.error == Died || r.error.Failed?
      ensures r.Err? && r.error.Failed? ==> steps == 0
      ensures r == Err(Failed(IoFailed)) ==> node.mayFail
      ensures r == Err(Failed(SealCancelled)) ==> mayCancel
      ensures r == Err(Failed(ChunkMissing)) ==> !old(Available(node.chunks + node.remote, chain))
      ensures r != Err(Failed(CorruptManifest))
      ensures r == Err(Died) ==> steps == lifetime < 4
      ensures old(Available(node.chunks + node.remote, Shared(State())) && Available(node.chunks + node.remote, chain))
              ==> Available(node.chunks + node.remote, chain)
    {
      assert SharedOf(chain, merged) == Shared(State());
      OwnMerges(g, State());
      if lifetime == 0 { return Err(Died), 0; }
      ghost var d, before := State(), node.chunks + node.remote;
      var sealed, admitted := SealTop(node, g, top.value, chain, merged, true, mayCancel);
      KeptReadable(g, d, 0, before, node.chunks + node.remote);
      if sealed.Err? { return Err(Failed(sealed.error)), 0; }
      steps := Commit(sealed.value, depth, lifetime);
      KeptReadable(g, d, steps, before, node.chunks + node.remote);
      return if steps == 4 then Ok(sealed.value) else Err(Died), steps;
    }

    /** Seals the disk; `lifetime` is how many commit steps are made before the
        node dies or one of them fails. `steps` were made when this returns. */
    method SealDisk(g: Geometry, lifetime: nat, mayCancel: bool)
      returns (r: Result<Layer, SealFailure>, steps: nat)
      requires Readable(g, State())
      modifies this, node
      ensures r == Err(ChainShape) <==> |old(chain)| > old(Depth(State())) + 1
      ensures r == Err(EmptyChain) <==> old(top).None? && |old(chain)| == 0
      ensures r == Err(ChainShape) ==> State() == old(State())
      ensures r != Err(ChainShape) ==>
                old(chain) == Chain(old(Shared(State())), old(Own(State())))
                && State() == SealSteps(g, old(State()), steps)
      ensures r.Ok? && old(top).Some? ==> steps == 4 && chain == old(Shared(State())) + [r.value] && top.None?
      ensures r.Ok? && old(top).None? ==> r.value == chain[|chain| - 1]
      ensures r.Err? && r.error.Failed? ==> steps == 0
      ensures r == Err(Failed(IoFailed)) ==> node.mayFail
      ensures r == Err(Failed(SealCancelled)) ==> mayCancel
      ensures r == Err(Failed(ChunkMissing)) ==> !old(Available(node.chunks + node.remote, chain))
      ensures r != Err(Failed(CorruptManifest))
      ensures r == Err(Died) ==> steps == lifetime < 4 && old(top).Some?
      ensures old(Available(node.chunks + node.remote, Shared(State())) && Available(node.chunks + node.remote, chain))
              ==> Available(node.chunks + node.remote, chain)
    {
      steps := 0;
      var depth := if sharedDepth < |chain| then sharedDepth else |chain|;
      if |chain| > depth + 1 {
        return Err(ChainShape), 0;
      }
      var merged := if |chain| > depth then Some(chain[|chain| - 1]) else None;
      assert merged == Own(State());
      assert chain == Chain(Shared(State()), Own(State()));
      if top.None? {
        if |chain| == 0 { return Err(EmptyChain), 0; }
        return Ok(chain[|chain| - 1]), 0;
      }
      r, steps := SealServed(g, depth, merged, lifetime, mayCancel);
    }
  }

  // ---- runs ------------------------------------------------------------------------------

  /** What happens to a disk. `Seal(n)` is a seal that makes `n` of its commit
      steps before the node dies; one that lives makes all four. */
  datatype Event = Open | Write(off: nat, bytes: seq<Byte>) | Discard(off: nat, len: nat) | Seal(steps: nat)

  /** Writes and discards of whole blocks, to a disk that has its top. */
  ghost predicate Allowed(g: Geometry, block: Pos, d: Disk, e: Event) {
    match e
    case Write(off, bytes) => d.top.Some? && off + |bytes| <= g.size && BlockAligned(block, off, |bytes|, g.size)
    case Discard(off, len) => d.top.Some? && off + len <= g.size && BlockAligned(block, off, len, g.size)
    case _ => true
  }

  ghost function Exec(g: Geometry, block: Pos, d: Disk, e: Event): Disk
    requires Inv(g, d) && Allowed(g, block, d, e)
  {
    match e
    case Open => if d.top.None? then d.(top := Some(Fresh(g.size))) else d
    case Write(off, bytes) => d.(top := Some(Written(d.top.value, block, off, bytes)))
    case Discard(off, len) => d.(top := Some(Written(d.top.value, block, off, Zeros(len))))
    case Seal(n) => SealSteps(g, d, n)
  }

  /** The same events on a plain array of bytes. */
  ghost function Guest(bytes: seq<Byte>, e: Event): (r: seq<Byte>)
    ensures |r| == |bytes|
  {
    match e
    case Write(off, data) => if off + |data| <= |bytes| then Splice(bytes, off, data) else bytes
    case Discard(off, len) => if off + len <= |bytes| then Splice(bytes, off, Zeros(len)) else bytes
    case _ => bytes
  }

  lemma ExecStep(g: Geometry, block: Pos, d: Disk, e: Event)
    requires Inv(g, d) && Allowed(g, block, d, e)
    ensures Inv(g, Exec(g, block, d, e))
    ensures Content(g, Exec(g, block, d, e)) == Guest(Content(g, d), e)
    ensures Shared(Exec(g, block, d, e)) == Shared(d)
  {
    var base := View(g, d.chain);
    match e
    case Open =>
      if d.top.None? {
        assert Overlay(Fresh(g.size), base) == base;
      }
    case Write(off, bytes) =>
      AlignedEdges(d.top.value, block, off, |bytes|, base);
      WriteChangesItsRange(d.top.value, block, off, bytes, base);
    case Discard(off, len) =>
      AlignedEdges(d.top.value, block, off, len, base);
      WriteChangesItsRange(d.top.value, block, off, Zeros(len), base);
    case Seal(n) => SealCrashSafe(g, d, n);
  }

  ghost predicate AllowedRun(g: Geometry, block: Pos, d: Disk, es: seq<Event>)
    requires Inv(g, d)
    decreases |es|
  {
    |es| == 0 || (Allowed(g, block, d, es[0]) &&
                  (ExecStep(g, block, d, es[0]); AllowedRun(g, block, Exec(g, block, d, es[0]), es[1..])))
  }

  ghost function Run(g: Geometry, block: Pos, d: Disk, es: seq<Event>): Disk
    requires Inv(g, d) && AllowedRun(g, block, d, es)
    decreases |es|
  {
    if |es| == 0 then d
    else
      ExecStep(g, block, d, es[0]);
      Run(g, block, Exec(g, block, d, es[0]), es[1..])
  }

  ghost function GuestRun(bytes: seq<Byte>, es: seq<Event>): seq<Byte>
    decreases |es|
  {
    if |es| == 0 then bytes else GuestRun(Guest(bytes, es[0]), es[1..])
  }

  /** Through every run, with seals cut short anywhere, a sound disk stays sound
      and behaves as the plain array does. */
  lemma {:induction false} RunIsAnArray(g: Geometry, block: Pos, d: Disk, es: seq<Event>)
    requires Inv(g, d) && AllowedRun(g, block, d, es)
    ensures Inv(g, Run(g, block, d, es))
    ensures Content(g, Run(g, block, d, es)) == GuestRun(Content(g, d), es)
    ensures Shared(Run(g, block, d, es)) == Shared(d)
    decreases |es|
  {
    if |es| > 0 {
      ExecStep(g, block, d, es[0]);
      RunIsAnArray(g, block, Exec(g, block, d, es[0]), es[1..]);
    }
  }

  /** Two disks over the same shared layers that went through any two runs and
      hold the same bytes seal to the same layer. */
  lemma SameBytesSameLayer(g: Geometry, block: Pos, d1: Disk, es1: seq<Event>, d2: Disk, es2: seq<Event>)
    requires Inv(g, d1) && AllowedRun(g, block, d1, es1)
    requires Inv(g, d2) && AllowedRun(g, block, d2, es2)
    requires Shared(d1) == Shared(d2)
    requires GuestRun(Content(g, d1), es1) == GuestRun(Content(g, d2), es2)
    requires Run(g, block, d1, es1).top.Some? && Run(g, block, d2, es2).top.Some?
    ensures Inv(g, Run(g, block, d1, es1)) && Inv(g, Run(g, block, d2, es2))
    ensures NewLayer(g, Run(g, block, d1, es1)) == NewLayer(g, Run(g, block, d2, es2))
  {
    RunIsAnArray(g, block, d1, es1);
    RunIsAnArray(g, block, d2, es2);
    var a, b := Run(g, block, d1, es1), Run(g, block, d2, es2);
    SealIsCanonical(g, Shared(a), Own(a), a.top.value);
    SealIsCanonical(g, Shared(b), Own(b), b.top.value);
  }

  /** Two disks at rest over the same shared layers that hold the same bytes have
      the same layer of their own. */
  lemma SameBytesSameOwn(g: Geometry, block: Pos, d1: Disk, es1: seq<Event>, d2: Disk, es2: seq<Event>)
    requires Inv(g, d1) && AllowedRun(g, block, d1, es1)
    requires Inv(g, d2) && AllowedRun(g, block, d2, es2)
    requires Shared(d1) == Shared(d2)
    requires GuestRun(Content(g, d1), es1) == GuestRun(Content(g, d2), es2)
    requires var (a, b) := (Run(g, block, d1, es1), Run(g, block, d2, es2));
             a.top.None? && b.top.None? && Own(a).Some? && Own(b).Some?
    ensures Own(Run(g, block, d1, es1)) == Own(Run(g, block, d2, es2))
  {
    RunIsAnArray(g, block, d1, es1);
    RunIsAnArray(g, block, d2, es2);
  }

  /** A disk at rest with a layer of its own has the layer that any disk with the
      same bytes seals to. */
  lemma RestingIsSealed(g: Geometry, d: Disk, e: Disk)
    requires Inv(g, d) && Inv(g, e) && Shared(d) == Shared(e)
    requires d.top.None? && Own(d).Some? && e.top.Some? && Content(g, d) == Content(g, e)
    ensures NewLayer(g, e) == Own(d).value
  {
    SealIsCanonical(g, Shared(e), Own(e), e.top.value);
  }

  /** A new disk over sealed layers is sound. */
  lemma NewDiskIsSound(g: Geometry, chain: seq<Layer>, layers: set<Layer>)
    requires ChainOk(g, chain) && Linked(chain)
    requires forall m :: m in chain ==> m in layers && LayerNonzero(m)
    ensures Inv(g, Disk(chain, |chain|, None, layers))
  {
    var d := Disk(chain, |chain|, None, layers);
    assert Shared(d) == chain;
    ChainNonzero(g, chain);
  }
}
