/** Garbage collection of the object store: three passes over a bucket, which
    may stop anywhere. */
module Sweep {
  import opened Wrappers
  import opened StoreKeys

  /** A pod's head, as far as a sweep and its own checks look at it. */
  datatype Head = Head(pod: string, size: nat, chunkSize: nat, chain: seq<string>, shared: Option<nat>,
                       memory: Option<string>, volumes: seq<string>)

  datatype Manifest = Manifest(parent: Option<string>, chunks: set<string>)

  datatype Content = HeadFile(head: Head) | ManifestFile(manifest: Manifest) | OtherFile

  datatype Stored = Stored(modified: int, content: Content)

  type Bucket = map<string, Stored>

  // ---- heads ------------------------------------------------------------------------------

  predicate ValidHead(h: Head) {
    && h.pod != "" && h.chain != [] && h.size != 0 && h.chunkSize != 0
    && (h.shared.Some? ==> h.shared.value != 0 && h.shared.value <= |h.chain|)
    && forall k :: 0 <= k < |h.volumes| ==> IsHeadKey(h.volumes[k])
  }

  /** A head that does not say how many layers are shared shares all. */
  function SharedDepth(h: Head): nat {
    var depth := if h.shared.Some? then h.shared.value else |h.chain|;
    if depth < |h.chain| then depth else |h.chain|
  }

  /** It is the depth a valid head says, never past the chain; the oldest layer is
      always shared. */
  lemma SharedDepthFits(h: Head)
    ensures SharedDepth(h) <= |h.chain|
    ensures h.shared.None? ==> SharedDepth(h) == |h.chain|
    ensures ValidHead(h) ==> 1 <= SharedDepth(h) && (h.shared.Some? ==> SharedDepth(h) == h.shared.value)
  {
  }

  /** The key of each of a valid head's volumes is that of an epoch's head. */
  lemma VolumesAreHeads(h: Head, key: string)
    requires ValidHead(h) && key in h.volumes
    ensures SplitSnapshotKey(key).Some? && SplitSnapshotKey(key).value.1 == HEAD
  {
    HeadKeySplits(key);
  }

  // ---- reachable layers ----------------------------------------------------------------------

  /** `x` is one of `ids`, or at most `n` parents away from one. */
  ghost predicate Reaches(store: map<string, Manifest>, ids: set<string>, x: string, n: nat)
    decreases n
  {
    x in ids || (n > 0 && exists c :: c in store && store[c].parent == Some(x) && Reaches(store, ids, c, n - 1))
  }

  ghost predicate Reachable(store: map<string, Manifest>, ids: set<string>, x: string) {
    exists n: nat :: Reaches(store, ids, x, n)
  }

  ghost predicate ClosedUp(store: map<string, Manifest>, ids: set<string>) {
    forall c :: c in ids && c in store && store[c].parent.Some? ==> store[c].parent.value in ids
  }

  lemma {:induction false} ReachedIsIn(store: map<string, Manifest>, ids: set<string>, all: set<string>, x: string,
                                       n: nat)
    requires ids <= all && ClosedUp(store, all) && Reaches(store, ids, x, n)
    ensures x in all
    decreases n
  {
    if x !in ids {
      var c :| c in store && store[c].parent == Some(x) && Reaches(store, ids, c, n - 1);
      ReachedIsIn(store, ids, all, c, n - 1);
    }
  }

  lemma ParentReached(store: map<string, Manifest>, ids: set<string>, c: string)
    requires Reachable(store, ids, c) && c in store && store[c].parent.Some?
    ensures Reachable(store, ids, store[c].parent.value)
  {
    var n: nat :| Reaches(store, ids, c, n);
    assert Reaches(store, ids, store[c].parent.value, n + 1);
  }

  ghost predicate Distinct(s: seq<string>) {
    forall i, j :: 0 <= i < j < |s| ==> s[i] != s[j]
  }

  method ToSeq(s: set<string>) returns (r: seq<string>)
    ensures (forall x :: x in r <==> x in s) && Distinct(r)
  {
    r := [];
    var left := s;
    while left != {}
      invariant left <= s && (forall x :: x in r <==> x in s && x !in left) && Distinct(r)
      decreases left
    {
      var x :| x in left;
      r := r + [x];
      left := left - {x};
    }
  }

  ghost function ParentsIn(store: map<string, Manifest>): set<string> {
    set c | c in store && store[c].parent.Some? :: store[c].parent.value
  }

  /** The worklist: what is seen but not queued has its parent seen. */
  ghost predicate Expanding(store: map<string, Manifest>, ids: set<string>, out: seq<string>, seen: set<string>,
                            queue: seq<string>) {
    && (forall x :: x in seen <==> x in ids || x in out)
    && Distinct(out) && Distinct(queue) && (forall x :: x in out ==> x !in ids)
    && (forall x :: x in queue ==> x in seen)
    && (forall x :: x in seen ==> Reachable(store, ids, x))
    && (forall c :: c in seen && c !in queue && c in store && store[c].parent.Some? ==> store[c].parent.value in seen)
  }

  lemma PopLast(queue: seq<string>)
    requires Distinct(queue) && |queue| > 0
    ensures Distinct(queue[..|queue| - 1]) && queue[|queue| - 1] !in queue[..|queue| - 1]
    ensures forall x :: x in queue <==> x in queue[..|queue| - 1] || x == queue[|queue| - 1]
  {
    assert queue == queue[..|queue| - 1] + [queue[|queue| - 1]];
  }

  lemma Expanded(store: map<string, Manifest>, ids: set<string>, out: seq<string>, seen: set<string>)
    requires Expanding(store, ids, out, seen, [])
    ensures forall x :: x in out || x in ids <==> Reachable(store, ids, x)
  {
    forall x | Reachable(store, ids, x) ensures x in seen {
      var n: nat :| Reaches(store, ids, x, n);
      ReachedIsIn(store, ids, seen, x, n);
    }
  }

  lemma ExpandsTo(store: map<string, Manifest>, ids: set<string>, out: seq<string>, seen: set<string>,
                  queue: seq<string>)
    requires Expanding(store, ids, out, seen, queue) && |queue| > 0
    ensures var id, rest := queue[|queue| - 1], queue[..|queue| - 1];
            if id in store && store[id].parent.Some? && store[id].parent.value !in seen
            then
              var p := store[id].parent.value;
              Expanding(store, ids, out + [p], seen + {p}, rest + [p])
            else Expanding(store, ids, out, seen, rest)
  {
    PopLast(queue);
    var id, rest := queue[|queue| - 1], queue[..|queue| - 1];
    if id in store && store[id].parent.Some? && store[id].parent.value !in seen {
      ParentReached(store, ids, id);
    }
  }

  /** The part of the store that reading succeeds for. */
  ghost function ReadPart(store: map<string, Manifest>, readable: set<string>): map<string, Manifest> {
    map id | id in store && id in readable :: store[id]
  }

  /** The parents, their parents and so on of `ids`. A manifest that cannot be
      read is skipped, with its parent: with `ids` this is exactly what the part
      that can be read reaches, whatever cycles the parents make; it ends. */
  method ExpandParents(store: map<string, Manifest>, readable: set<string>, ids: set<string>) returns (out: seq<string>)
    ensures forall x :: x in out || x in ids <==> Reachable(ReadPart(store, readable), ids, x)
    ensures Distinct(out) && forall x :: x in out ==> x !in ids
  {
    ghost var part := ReadPart(store, readable);
    out := [];
    var seen := ids;
    var queue := ToSeq(ids);
    assert forall x :: x in ids ==> Reaches(part, ids, x, 0);
    while queue != []
      invariant Expanding(part, ids, out, seen, queue)
      decreases ParentsIn(part) - seen, |queue|
    {
      ExpandsTo(part, ids, out, seen, queue);
      var id := queue[|queue| - 1];
      queue := queue[..|queue| - 1];
      if id in readable && id in store && store[id].parent.Some? {
        var p := store[id].parent.value;
        if p !in seen {
          assert id in part && p in ParentsIn(part) - seen;
          seen := seen + {p};
          out := out + [p];
          queue := queue + [p];
        }
      }
    }
    Expanded(part, ids, out, seen);
  }

  // ---- manifests that cannot be read ------------------------------------------------------------

  /** Every manifest that is reached and cannot be read has its parent reached
      another way. */
  ghost predicate ParentsFound(store: map<string, Manifest>, readable: set<string>, ids: set<string>) {
    forall c :: c in store && c !in readable && store[c].parent.Some?
                && Reachable(ReadPart(store, readable), ids, c) ==>
      Reachable(ReadPart(store, readable), ids, store[c].parent.value)
  }

  /** Nothing is reached that the whole store does not reach. */
  lemma {:induction false} PartReachesLess(store: map<string, Manifest>, readable: set<string>, ids: set<string>,
                                           x: string, n: nat)
    requires Reaches(ReadPart(store, readable), ids, x, n)
    ensures Reaches(store, ids, x, n)
    decreases n
  {
    if x !in ids {
      var part := ReadPart(store, readable);
      var c :| c in part && part[c].parent == Some(x) && Reaches(part, ids, c, n - 1);
      PartReachesLess(store, readable, ids, c, n - 1);
    }
  }

  lemma {:induction false} FoundIsReached(store: map<string, Manifest>, readable: set<string>, ids: set<string>,
                                          x: string, n: nat)
    requires ParentsFound(store, readable, ids) && Reaches(store, ids, x, n)
    ensures Reachable(ReadPart(store, readable), ids, x)
    decreases n
  {
    var part := ReadPart(store, readable);
    if x in ids {
      assert Reaches(part, ids, x, 0);
    } else {
      var c :| c in store && store[c].parent == Some(x) && Reaches(store, ids, c, n - 1);
      FoundIsReached(store, readable, ids, c, n - 1);
      if c in readable { ParentReached(part, ids, c); }
    }
  }

  /** The expansion finds all that the store reaches if and only if every
      manifest it reached and could not read has its parent reached anyway. */
  lemma AllReachedIff(store: map<string, Manifest>, readable: set<string>, ids: set<string>)
    ensures (forall x :: Reachable(store, ids, x) ==> Reachable(ReadPart(store, readable), ids, x))
            <==> ParentsFound(store, readable, ids)
    ensures forall x :: Reachable(ReadPart(store, readable), ids, x) ==> Reachable(store, ids, x)
  {
    var part := ReadPart(store, readable);
    forall x | Reachable(part, ids, x) ensures Reachable(store, ids, x) {
      var n: nat :| Reaches(part, ids, x, n);
      PartReachesLess(store, readable, ids, x, n);
    }
    if ParentsFound(store, readable, ids) {
      forall x | Reachable(store, ids, x) ensures Reachable(part, ids, x) {
        var n: nat :| Reaches(store, ids, x, n);
        FoundIsReached(store, readable, ids, x, n);
      }
    }
    if forall x :: Reachable(store, ids, x) ==> Reachable(part, ids, x) {
      forall c | c in store && c !in readable && store[c].parent.Some? && Reachable(part, ids, c)
        ensures Reachable(part, ids, store[c].parent.value)
      {
        ParentReached(store, ids, c);
      }
    }
  }
}
