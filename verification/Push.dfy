/** Uploading layers: a layer's chunks before its manifest, its ancestors before
    it. A node keeps markers of the chunks it knows to be in the bucket, and
    skips those. */
module Push {
  import opened Wrappers

  /** A chunk's hash, in hexadecimal digits. */
  type Hash = string

  /** A layer by what its id stands for: its parent and its data chunks. */
  datatype Layer = Layer(parent: Option<Layer>, chunks: seq<Hash>)

  ghost predicate HasChunks(l: Layer, chunks: set<Hash>) {
    forall h :: h in l.chunks ==> h in chunks
  }

  /** Every manifest in the bucket has its chunks there. */
  ghost predicate ManifestsComplete(layers: set<Layer>, chunks: set<Hash>) {
    forall l :: l in layers ==> HasChunks(l, chunks)
  }

  /** `a` is `l` or one of its ancestors. */
  ghost predicate InChain(l: Layer, a: Layer) {
    a == l || (l.parent.Some? && InChain(l.parent.value, a))
  }

  ghost function Depth(l: Layer): nat {
    if l.parent.Some? then 1 + Depth(l.parent.value) else 0
  }

  /** The layer and all its ancestors are there. */
  ghost predicate ChainIn(l: Layer, layers: set<Layer>) {
    l in layers && (l.parent.Some? ==> ChainIn(l.parent.value, layers))
  }

  lemma {:induction false} ChainInIff(l: Layer, layers: set<Layer>)
    ensures ChainIn(l, layers) <==> forall a :: InChain(l, a) ==> a in layers
  {
    if l.parent.Some? {
      ChainInIff(l.parent.value, layers);
      if forall a :: InChain(l, a) ==> a in layers {
        assert InChain(l, l);
        forall a | InChain(l.parent.value, a) ensures a in layers { assert InChain(l, a); }
      }
    } else {
      assert InChain(l, l);
    }
  }

  /** Every chunk of the layer, of the chain, can be had: the node has its file or the
      bucket has it. */
  ghost predicate Sourced(l: Layer, cached: set<Hash>, chunks: set<Hash>) {
    HasChunks(l, cached + chunks)
  }

  ghost predicate ChainSourced(l: Layer, cached: set<Hash>, chunks: set<Hash>) {
    forall a :: InChain(l, a) ==> Sourced(a, cached, chunks)
  }

  /** No layer is without its parent. */
  ghost predicate ParentsIn(layers: set<Layer>) {
    forall l :: l in layers && l.parent.Some? ==> l.parent.value in layers
  }

  /** The layers of a chain that are not in the bucket, newest first, as far as
      the scan is: down to `cur`. */
  ghost predicate Scanned(id: Layer, cur: Option<Layer>, layers: set<Layer>, pending: seq<Layer>) {
    && (forall a :: InChain(id, a) ==> a in layers || a in pending || (cur.Some? && InChain(cur.value, a)))
    && (forall i, j :: 0 <= i < j < |pending| ==> Depth(pending[i]) > Depth(pending[j]))
    && (forall i :: 0 <= i < |pending| ==>
          InChain(id, pending[i]) && (cur.Some? ==> Depth(pending[i]) > Depth(cur.value)))
    && (cur.Some? ==> InChain(id, cur.value))
  }

  lemma {:induction false} ParentInChain(id: Layer, a: Layer)
    requires InChain(id, a) && a.parent.Some?
    ensures InChain(id, a.parent.value)
  {
    if a == id {
      assert InChain(a.parent.value, a.parent.value);
    } else {
      ParentInChain(id.parent.value, a);
    }
  }

  lemma ScanNext(id: Layer, cur: Layer, layers: set<Layer>, pending: seq<Layer>, tiered: bool)
    requires Scanned(id, Some(cur), layers, pending) && (tiered ==> cur in layers)
    ensures Scanned(id, cur.parent, layers, if tiered then pending else pending + [cur])
  {
    var next := if tiered then pending else pending + [cur];
    forall a | InChain(id, a) ensures a in layers || a in next || (cur.parent.Some? && InChain(cur.parent.value, a)) {
      if a !in layers && a !in pending { assert InChain(cur, a); }
    }
    if cur.parent.Some? { ParentInChain(id, cur); }
  }

  /** The scan's layers oldest first: each has its parent in the bucket or
      before it. */
  ghost predicate OldestFirst(layers: set<Layer>, rest: seq<Layer>) {
    forall k :: 0 <= k < |rest| && rest[k].parent.Some? ==>
      rest[k].parent.value in layers || rest[k].parent.value in rest[..k]
  }

  function Reversed(s: seq<Layer>): seq<Layer> {
    seq(|s|, k requires 0 <= k < |s| => s[|s| - 1 - k])
  }

  lemma ReversedIsOldestFirst(id: Layer, layers: set<Layer>, pending: seq<Layer>)
    requires Scanned(id, None, layers, pending)
    ensures OldestFirst(layers, Reversed(pending))
    ensures forall a :: InChain(id, a) ==> a in layers || a in Reversed(pending)
  {
    var rest := Reversed(pending);
    forall k | 0 <= k < |rest| && rest[k].parent.Some?
      ensures rest[k].parent.value in layers || rest[k].parent.value in rest[..k]
    {
      var j := |pending| - 1 - k;
      var p := pending[j].parent.value;
      ParentInChain(id, pending[j]);
      if p !in layers {
        var m :| 0 <= m < |pending| && pending[m] == p;
        assert m > j;
        assert rest[..k][|pending| - 1 - m] == p;
      }
    }
    forall a | InChain(id, a) && a !in layers ensures a in rest {
      var m :| 0 <= m < |pending| && pending[m] == a;
      assert rest[|pending| - 1 - m] == a;
    }
  }

  lemma NextKeepsParents(first: set<Layer>, before: set<Layer>, after: set<Layer>, rest: seq<Layer>, n: nat)
    requires OldestFirst(first, rest) && first <= before && ParentsIn(before) && n < |rest|
    requires forall k :: 0 <= k < n ==> rest[k] in before
    requires after == before || after == before + {rest[n]}
    ensures ParentsIn(after)
  {
    if rest[n].parent.Some? && rest[n].parent.value !in first {
      var k :| 0 <= k < n && rest[..n][k] == rest[n].parent.value;
      assert rest[k] in before;
    }
  }
}
