/** The cache's budget actor: which chunk files count against the budget, in
    which order they go, and which are kept whatever the budget says. */
module CacheBudget {
  import opened Wrappers
  import opened Layers

  type Lru = seq<(Digest, nat)>

  /** The actor's state: `lru` (least recently used first) and `bytes` are the
      chunks the budget is about; `pinned` are those that are pinned or held. */
  datatype State = State(budget: nat, lru: Lru, bytes: nat, pinned: map<Digest, nat>, pinnedBytes: nat,
                         pins: set<Digest>, holds: map<nat, set<Digest>>)

  // ---- lists and sums ---------------------------------------------------------------

  predicate Has(l: Lru, h: Digest) {
    exists i :: 0 <= i < |l| && l[i].0 == h
  }

  ghost predicate Distinct(l: Lru) {
    forall i, j :: 0 <= i < j < |l| ==> l[i].0 != l[j].0
  }

  function Sum(l: Lru): nat {
    if |l| == 0 then 0 else l[0].1 + Sum(l[1..])
  }

  /** The list without the chunks of `hs`. */
  function Without(l: Lru, hs: set<Digest>): Lru {
    if |l| == 0 then []
    else if l[0].0 in hs then Without(l[1..], hs)
    else [l[0]] + Without(l[1..], hs)
  }

  /** The list's chunks of `hs`, with their lengths. */
  function Taken(l: Lru, hs: set<Digest>): map<Digest, nat> {
    if |l| == 0 then map[]
    else if l[0].0 in hs then Taken(l[1..], hs)[l[0].0 := l[0].1]
    else Taken(l[1..], hs)
  }

  ghost function MapSum(m: map<Digest, nat>): nat {
    if m == map[] then 0
    else
      var k :| k in m;
      m[k] + MapSum(m - {k})
  }

  ghost function Keys(l: Lru): set<Digest> {
    set i | 0 <= i < |l| :: l[i].0
  }

  lemma {:induction false} MapSumRemove(m: map<Digest, nat>, k: Digest)
    requires k in m
    ensures MapSum(m) == m[k] + MapSum(m - {k})
    decreases |m|
  {
    var j :| j in m && MapSum(m) == m[j] + MapSum(m - {j});
    if j != k {
      assert |m - {j}| < |m| by { assert (m - {j}).Keys == m.Keys - {j}; }
      MapSumRemove(m - {j}, k);
      assert |m - {k}| < |m| by { assert (m - {k}).Keys == m.Keys - {k}; }
      MapSumRemove(m - {k}, j);
      assert m - {j} - {k} == m - {k} - {j};
    }
  }

  lemma MapSumAdd(m: map<Digest, nat>, k: Digest, v: nat)
    requires k !in m
    ensures MapSum(m[k := v]) == MapSum(m) + v
  {
    MapSumRemove(m[k := v], k);
    assert m[k := v] - {k} == m;
  }

  lemma {:induction false} SumSnoc(l: Lru, x: (Digest, nat))
    ensures Sum(l + [x]) == Sum(l) + x.1
  {
    if |l| > 0 {
      SumSnoc(l[1..], x);
      assert (l + [x])[1..] == l[1..] + [x];
    }
  }

  lemma {:induction false} SumConcat(a: Lru, b: Lru)
    ensures Sum(a + b) == Sum(a) + Sum(b)
  {
    if |a| == 0 {
      assert a + b == b;
    } else {
      SumConcat(a[1..], b);
      assert (a + b)[1..] == a[1..] + b;
    }
  }

  lemma HasConcat(a: Lru, b: Lru, h: Digest)
    ensures Has(a + b, h) <==> Has(a, h) || Has(b, h)
  {
    var c := a + b;
    if Has(a, h) {
      var i :| 0 <= i < |a| && a[i].0 == h;
      assert c[i].0 == h;
    }
    if Has(b, h) {
      var i :| 0 <= i < |b| && b[i].0 == h;
      assert c[|a| + i].0 == h;
    }
  }

  lemma HasHead(l: Lru, h: Digest)
    requires |l| > 0
    ensures Has(l, h) <==> l[0].0 == h || Has(l[1..], h)
  {
    assert l == [l[0]] + l[1..];
    HasConcat([l[0]], l[1..], h);
    assert Has([l[0]], h) <==> l[0].0 == h by { assert [l[0]][0] == l[0]; }
  }

  lemma {:induction false} WithoutHas(l: Lru, hs: set<Digest>, h: Digest)
    ensures Has(Without(l, hs), h) <==> Has(l, h) && h !in hs
  {
    if |l| > 0 {
      HasHead(l, h);
      WithoutHas(l[1..], hs, h);
      if l[0].0 !in hs {
        HasHead(Without(l, hs), h);
        assert Without(l, hs)[1..] == Without(l[1..], hs);
      }
    }
  }

  lemma {:induction false} WithoutDistinct(l: Lru, hs: set<Digest>)
    requires Distinct(l)
    ensures Distinct(Without(l, hs))
  {
    if |l| > 0 {
      WithoutDistinct(l[1..], hs);
      if l[0].0 !in hs {
        WithoutHas(l[1..], hs, l[0].0);
        assert !Has(l[1..], l[0].0);
      }
    }
  }

  lemma {:induction false} TakenKeys(l: Lru, hs: set<Digest>, h: Digest)
    ensures h in Taken(l, hs) <==> Has(l, h) && h in hs
  {
    if |l| > 0 {
      HasHead(l, h);
      TakenKeys(l[1..], hs, h);
    }
  }

  lemma {:induction false} SumSplit(l: Lru, hs: set<Digest>)
    requires Distinct(l)
    ensures Sum(l) == Sum(Without(l, hs)) + MapSum(Taken(l, hs))
  {
    if |l| > 0 {
      SumSplit(l[1..], hs);
      if l[0].0 in hs {
        TakenKeys(l[1..], hs, l[0].0);
        assert !Has(l[1..], l[0].0);
        MapSumAdd(Taken(l[1..], hs), l[0].0, l[0].1);
      } else {
        assert Without(l, hs)[1..] == Without(l[1..], hs);
      }
    }
  }

  lemma UnionStep(a: map<Digest, nat>, b: map<Digest, nat>, k: Digest)
    requires a.Keys !! b.Keys && k in b
    ensures k !in b - {k} && (b - {k})[k := b[k]] == b
    ensures k !in a + (b - {k}) && (a + (b - {k}))[k := b[k]] == a + b
    ensures a.Keys !! (b - {k}).Keys && (b - {k}).Keys < b.Keys
  {
    assert k !in (b - {k}).Keys;
  }

  lemma {:induction false} MapSumUnion(a: map<Digest, nat>, b: map<Digest, nat>)
    requires a.Keys !! b.Keys
    ensures MapSum(a + b) == MapSum(a) + MapSum(b)
    decreases b.Keys
  {
    if b == map[] {
      assert a + b == a;
    } else {
      var k :| k in b;
      UnionStep(a, b, k);
      MapSumUnion(a, b - {k});
      MapSumAdd(b - {k}, k, b[k]);
      MapSumAdd(a + (b - {k}), k, b[k]);
    }
  }

  lemma WithoutNone(l: Lru, hs: set<Digest>)
    requires forall i :: 0 <= i < |l| ==> l[i].0 !in hs
    ensures Without(l, hs) == l
  {
  }

  // ---- the actor's parts --------------------------------------------------------------

  function SatSub(a: nat, b: nat): nat {
    if a < b then 0 else a - b
  }

  predicate Wanted(s: State, h: Digest) {
    h in s.pins || exists id :: id in s.holds && h in s.holds[id]
  }

  /** The list and the pinned set split the chunks by whether they are wanted,
      and the counters are their sums. */
  ghost predicate Inv(s: State) {
    && Distinct(s.lru)
    && s.bytes == Sum(s.lru)
    && s.pinnedBytes == MapSum(s.pinned)
    && (forall h :: Has(s.lru, h) ==> !Wanted(s, h))
    && (forall h :: h in s.pinned ==> Wanted(s, h))
  }

  ghost predicate Known(s: State, h: Digest) {
    Has(s.lru, h) || h in s.pinned
  }

  function LruLen(l: Lru, h: Digest): nat {
    if |l| == 0 then 0 else if l[0].0 == h then l[0].1 else LruLen(l[1..], h)
  }

  ghost function Removed(s: State, h: Digest): State {
    s.(lru := Without(s.lru, {h}),
       bytes := if Has(s.lru, h) then SatSub(s.bytes, LruLen(s.lru, h)) else s.bytes,
       pinned := s.pinned - {h},
       pinnedBytes := if h in s.pinned then SatSub(s.pinnedBytes, s.pinned[h]) else s.pinnedBytes)
  }

  /** A chunk that came: pinned if it is wanted, else the most recently used. */
  ghost function Place(s: State, h: Digest, len: nat): State {
    var r := Removed(s, h);
    if Wanted(s, h) then r.(pinned := r.pinned[h := len], pinnedBytes := r.pinnedBytes + len)
    else r.(lru := r.lru + [(h, len)], bytes := r.bytes + len)
  }

  /** The chunks of `hs` leave the list for the pinned ones. */
  ghost function PinFromLru(s: State, hs: set<Digest>): State {
    s.(lru := Without(s.lru, hs),
       bytes := SatSub(s.bytes, MapSum(Taken(s.lru, hs))),
       pinned := s.pinned + Taken(s.lru, hs),
       pinnedBytes := s.pinnedBytes + MapSum(Taken(s.lru, hs)))
  }

  /** `tail` lists the pinned chunks that nobody wants, once each. */
  ghost predicate IsUnwanted(s: State, tail: Lru) {
    && Distinct(tail)
    && (forall h :: Has(tail, h) <==> h in s.pinned && !Wanted(s, h))
    && (forall i :: 0 <= i < |tail| ==> tail[i].0 in s.pinned && s.pinned[tail[i].0] == tail[i].1)
  }

  /** The unwanted chunks go back to the list, in the order of `tail`, as the
      most recently used ones. */
  ghost function Unpin(s: State, tail: Lru): State {
    s.(lru := s.lru + tail, bytes := s.bytes + Sum(tail),
       pinned := s.pinned - Keys(tail), pinnedBytes := SatSub(s.pinnedBytes, Sum(tail)))
  }

  /** The first chunk of the list that is not in `keep`; |l| if all are. */
  function Oldest(l: Lru, keep: set<Digest>): (i: nat)
    ensures i <= |l|
    ensures i < |l| ==> l[i].0 !in keep
    ensures forall k :: 0 <= k < i ==> l[k].0 in keep
  {
    if |l| == 0 then 0
    else if l[0].0 !in keep then 0
    else 1 + Oldest(l[1..], keep)
  }

  /** What is left of the list once its oldest chunk outside `keep` is gone: the
      chunks skipped on the way are the most recently used ones then. */
  function AfterDrop(l: Lru, keep: set<Digest>): (r: Lru)
    requires Oldest(l, keep) < |l|
    ensures |r| == |l| - 1
  {
    l[Oldest(l, keep) + 1..] + l[..Oldest(l, keep)]
  }

  /** Evicts until at most `goal` bytes are left, or nothing outside `keep`. */
  function EvictTo(l: Lru, bytes: nat, goal: nat, keep: set<Digest>): (r: (Lru, nat, Lru))
    decreases |l|
  {
    if bytes <= goal || Oldest(l, keep) == |l| then (l, bytes, [])
    else
      var x := l[Oldest(l, keep)];
      var rest := EvictTo(AfterDrop(l, keep), SatSub(bytes, x.1), goal, keep);
      (rest.0, rest.1, [x] + rest.2)
  }

  ghost function Evict(s: State, goal: nat, keep: set<Digest>): State {
    var r := EvictTo(s.lru, s.bytes, goal, keep);
    s.(lru := r.0, bytes := r.1)
  }

  ghost function Victims(s: State, goal: nat, keep: set<Digest>): Lru {
    EvictTo(s.lru, s.bytes, goal, keep).2
  }

  // ---- what the parts keep -----------------------------------------------------------------

  lemma {:induction false} LruLenSum(l: Lru, h: Digest)
    requires Distinct(l) && Has(l, h)
    ensures Sum(l) == Sum(Without(l, {h})) + LruLen(l, h)
  {
    HasHead(l, h);
    if l[0].0 == h {
      assert forall i :: 0 <= i < |l[1..]| ==> l[1..][i].0 != h;
      WithoutNone(l[1..], {h});
    } else {
      LruLenSum(l[1..], h);
      assert Without(l, {h})[1..] == Without(l[1..], {h});
    }
  }

  lemma WithoutNoneHas(l: Lru, h: Digest)
    requires !Has(l, h)
    ensures Without(l, {h}) == l
  {
    WithoutNone(l, {h});
  }

  lemma HasSnoc(l: Lru, x: (Digest, nat), h: Digest)
    ensures Has(l + [x], h) <==> Has(l, h) || x.0 == h
  {
    HasConcat(l, [x], h);
    assert [x][0] == x;
  }

  lemma SnocDistinct(l: Lru, x: (Digest, nat))
    requires Distinct(l) && !Has(l, x.0)
    ensures Distinct(l + [x])
  {
  }

  lemma RemovedSums(s: State, h: Digest)
    requires Distinct(s.lru) && s.bytes == Sum(s.lru) && s.pinnedBytes == MapSum(s.pinned)
    ensures var s' := Removed(s, h);
            s'.bytes == Sum(s'.lru) <= s.bytes && s'.pinnedBytes == MapSum(s'.pinned)
  {
    if Has(s.lru, h) { LruLenSum(s.lru, h); } else { WithoutNoneHas(s.lru, h); }
    if h in s.pinned { MapSumRemove(s.pinned, h); } else { assert s.pinned - {h} == s.pinned; }
  }

  lemma RemoveKeeps(s: State, h: Digest)
    requires Inv(s)
    ensures Inv(Removed(s, h)) && Removed(s, h).bytes <= s.bytes
    ensures forall x :: Known(Removed(s, h), x) <==> Known(s, x) && x != h
  {
    var s' := Removed(s, h);
    RemovedSums(s, h);
    WithoutDistinct(s.lru, {h});
    forall x ensures Has(s'.lru, x) <==> Has(s.lru, x) && x != h { WithoutHas(s.lru, {h}, x); }
    forall x ensures Wanted(s', x) <==> Wanted(s, x) { }
  }

  /** A wanted chunk the actor does not know comes. */
  lemma PinnedKeeps(r: State, h: Digest, len: nat)
    requires Inv(r) && !Known(r, h) && Wanted(r, h)
    ensures var s' := r.(pinned := r.pinned[h := len], pinnedBytes := r.pinnedBytes + len);
            Inv(s') && forall x :: Known(s', x) <==> Known(r, x) || x == h
  {
    var s' := r.(pinned := r.pinned[h := len], pinnedBytes := r.pinnedBytes + len);
    MapSumAdd(r.pinned, h, len);
    forall x ensures Wanted(s', x) <==> Wanted(r, x) { }
  }

  /** An unwanted one comes. */
  lemma ListedKeeps(r: State, h: Digest, len: nat)
    requires Inv(r) && !Known(r, h) && !Wanted(r, h)
    ensures var s' := r.(lru := r.lru + [(h, len)], bytes := r.bytes + len);
            Inv(s') && forall x :: Known(s', x) <==> Known(r, x) || x == h
  {
    var s' := r.(lru := r.lru + [(h, len)], bytes := r.bytes + len);
    SumSnoc(r.lru, (h, len));
    SnocDistinct(r.lru, (h, len));
    forall x ensures Has(s'.lru, x) <==> Has(r.lru, x) || x == h { HasSnoc(r.lru, (h, len), x); }
    forall x ensures Wanted(s', x) <==> Wanted(r, x) { }
  }

  lemma PlaceKeeps(s: State, h: Digest, len: nat)
    requires Inv(s)
    ensures Inv(Place(s, h, len))
    ensures Known(Place(s, h, len), h)
    ensures forall x :: x != h ==> (Known(Place(s, h, len), x) <==> Known(s, x))
  {
    var r := Removed(s, h);
    RemoveKeeps(s, h);
    assert Wanted(r, h) <==> Wanted(s, h);
    if Wanted(s, h) { PinnedKeeps(r, h, len); } else { ListedKeeps(r, h, len); }
  }

  lemma PinFromLruKeeps(s: State, hs: set<Digest>)
    requires Inv(s)
    ensures var s' := PinFromLru(s, hs);
            && Distinct(s'.lru) && s'.bytes == Sum(s'.lru) && s'.pinnedBytes == MapSum(s'.pinned)
            && (forall h :: Has(s'.lru, h) <==> Has(s.lru, h) && h !in hs)
            && (forall h :: h in s'.pinned <==> h in s.pinned || (Has(s.lru, h) && h in hs))
  {
    WithoutDistinct(s.lru, hs);
    SumSplit(s.lru, hs);
    forall h ensures Has(Without(s.lru, hs), h) <==> Has(s.lru, h) && h !in hs { WithoutHas(s.lru, hs, h); }
    forall h ensures h in Taken(s.lru, hs) <==> Has(s.lru, h) && h in hs { TakenKeys(s.lru, hs, h); }
    assert s.pinned.Keys !! Taken(s.lru, hs).Keys;
    MapSumUnion(s.pinned, Taken(s.lru, hs));
  }

  lemma KeysHas(l: Lru, h: Digest)
    ensures h in Keys(l) <==> Has(l, h)
  {
  }

  lemma {:induction false} TailSum(m: map<Digest, nat>, tail: Lru)
    requires Distinct(tail) && forall i :: 0 <= i < |tail| ==> tail[i].0 in m && m[tail[i].0] == tail[i].1
    ensures MapSum(m) == MapSum(m - Keys(tail)) + Sum(tail)
    decreases |tail|
  {
    if |tail| == 0 {
      assert m - Keys(tail) == m;
    } else {
      MapSumRemove(m, tail[0].0);
      TailSum(m - {tail[0].0}, tail[1..]);
      assert m - {tail[0].0} - Keys(tail[1..]) == m - Keys(tail) by {
        forall h ensures h in Keys(tail) <==> h == tail[0].0 || h in Keys(tail[1..]) {
          KeysHas(tail, h);
          KeysHas(tail[1..], h);
          HasHead(tail, h);
        }
      }
    }
  }

  lemma ConcatDistinct(a: Lru, b: Lru)
    requires Distinct(a) && Distinct(b) && forall h :: Has(b, h) ==> !Has(a, h)
    ensures Distinct(a + b)
  {
    forall i, j | 0 <= i < j < |a + b| ensures (a + b)[i].0 != (a + b)[j].0 {
      if i < |a| <= j { assert Has(b, b[j - |a|].0); }
    }
  }

  lemma UnpinSums(s: State, tail: Lru)
    requires s.bytes == Sum(s.lru) && s.pinnedBytes == MapSum(s.pinned) && IsUnwanted(s, tail)
    ensures var s' := Unpin(s, tail); s'.bytes == Sum(s'.lru) && s'.pinnedBytes == MapSum(s'.pinned)
  {
    SumConcat(s.lru, tail);
    TailSum(s.pinned, tail);
  }

  /** Where a chunk is once the unwanted ones went back. */
  lemma UnpinMoves(s: State, tail: Lru, h: Digest)
    requires IsUnwanted(s, tail)
    ensures Has(Unpin(s, tail).lru, h) <==> Has(s.lru, h) || (h in s.pinned && !Wanted(s, h))
    ensures h in Unpin(s, tail).pinned <==> h in s.pinned && Wanted(s, h)
  {
    HasConcat(s.lru, tail, h);
    KeysHas(tail, h);
  }

  /** A state whose counters are right and whose listed chunks are unwanted is
      sound once the unwanted pinned chunks went back. */
  lemma UnpinKeeps(s: State, tail: Lru)
    requires Distinct(s.lru) && s.bytes == Sum(s.lru) && s.pinnedBytes == MapSum(s.pinned)
    requires forall h :: Has(s.lru, h) ==> !Wanted(s, h) && h !in s.pinned
    requires IsUnwanted(s, tail)
    ensures Inv(Unpin(s, tail))
    ensures forall h :: Known(Unpin(s, tail), h) <==> Known(s, h)
    ensures forall h :: Wanted(Unpin(s, tail), h) <==> Wanted(s, h)
  {
    UnpinSums(s, tail);
    ConcatDistinct(s.lru, tail);
    var s' := Unpin(s, tail);
    forall h ensures Has(s'.lru, h) <==> Has(s.lru, h) || (h in s.pinned && !Wanted(s, h)) { UnpinMoves(s, tail, h); }
    forall h ensures h in s'.pinned <==> h in s.pinned && Wanted(s, h) { UnpinMoves(s, tail, h); }
    forall h ensures Wanted(s', h) <==> Wanted(s, h) { }
  }

  // ---- eviction ---------------------------------------------------------------------------------

  lemma {:induction false} WithoutConcat(a: Lru, b: Lru, hs: set<Digest>)
    ensures Without(a + b, hs) == Without(a, hs) + Without(b, hs)
  {
    if |a| == 0 {
      assert a + b == b;
    } else {
      WithoutConcat(a[1..], b, hs);
      assert (a + b)[0] == a[0] && (a + b)[1..] == a[1..] + b;
      var (x, y, z) := ([a[0]], Without(a[1..], hs), Without(b, hs));
      assert x + (y + z) == (x + y) + z;
    }
  }

  lemma {:induction false} WithoutAll(l: Lru, hs: set<Digest>)
    requires forall i :: 0 <= i < |l| ==> l[i].0 in hs
    ensures Without(l, hs) == []
  {
    if |l| > 0 { WithoutAll(l[1..], hs); }
  }

  /** Cuts a list around one of its chunks. */
  lemma CutHas(a: Lru, x: (Digest, nat), b: Lru, h: Digest)
    ensures Has(a + ([x] + b), h) <==> Has(b + a, h) || h == x.0
  {
    HasConcat(a, [x] + b, h);
    HasConcat([x], b, h);
    HasConcat(b, a, h);
    assert Has([x], h) <==> x.0 == h by { assert [x][0] == x; }
  }

  lemma CutSums(a: Lru, x: (Digest, nat), b: Lru)
    ensures Sum(a + ([x] + b)) == Sum(b + a) + x.1
  {
    SumConcat(a, [x] + b);
    SumConcat([x], b);
    SumConcat(b, a);
    assert Sum([x]) == x.1;
  }

  lemma CutWithout(a: Lru, x: (Digest, nat), b: Lru, keep: set<Digest>)
    requires x.0 !in keep && forall i :: 0 <= i < |a| ==> a[i].0 in keep
    ensures Without(a + ([x] + b), keep) == [x] + Without(b + a, keep)
  {
    WithoutConcat(a, [x] + b, keep);
    WithoutConcat([x], b, keep);
    WithoutConcat(b, a, keep);
    WithoutAll(a, keep);
    assert Without([x], keep) == [x];
  }

  lemma CutDistinct(a: Lru, x: (Digest, nat), b: Lru)
    requires Distinct(a + ([x] + b))
    ensures Distinct(b + a) && !Has(b + a, x.0)
  {
    var l, r := a + ([x] + b), b + a;
    forall i | 0 <= i < |a| ensures a[i].0 != x.0 { assert l[i] == a[i] && l[|a|] == x; }
    forall i | 0 <= i < |b| ensures b[i].0 != x.0 { assert l[|a| + 1 + i] == b[i] && l[|a|] == x; }
    forall i, j | 0 <= i < j < |r| ensures r[i].0 != r[j].0 {
      var p := if i < |b| then |a| + 1 + i else i - |b|;
      var q := if j < |b| then |a| + 1 + j else j - |b|;
      assert r[i] == l[p] && r[j] == l[q] && p != q;
    }
  }

  lemma AfterDropCut(l: Lru, keep: set<Digest>) returns (a: Lru, x: (Digest, nat), b: Lru)
    requires Oldest(l, keep) < |l|
    ensures l == a + ([x] + b) && AfterDrop(l, keep) == b + a && l[Oldest(l, keep)] == x
    ensures x.0 !in keep && forall i :: 0 <= i < |a| ==> a[i].0 in keep
  {
    var i := Oldest(l, keep);
    a, x, b := l[..i], l[i], l[i + 1..];
  }

  lemma AfterDropKeeps(l: Lru, keep: set<Digest>)
    requires Distinct(l) && Oldest(l, keep) < |l|
    ensures Distinct(AfterDrop(l, keep))
    ensures Sum(l) == Sum(AfterDrop(l, keep)) + l[Oldest(l, keep)].1
    ensures forall h :: Has(AfterDrop(l, keep), h) <==> Has(l, h) && h != l[Oldest(l, keep)].0
    ensures Without(l, keep) == [l[Oldest(l, keep)]] + Without(AfterDrop(l, keep), keep)
  {
    var a, x, b := AfterDropCut(l, keep);
    CutDistinct(a, x, b);
    CutSums(a, x, b);
    CutWithout(a, x, b, keep);
    forall h ensures Has(b + a, h) <==> Has(l, h) && h != x.0 {
      CutHas(a, x, b, h);
    }
  }

  /** Eviction parts the list: what is left, and what went. */
  lemma {:induction false} EvictParts(l: Lru, goal: nat, keep: set<Digest>)
    requires Distinct(l)
    ensures var (rest, bytes, victims) := EvictTo(l, Sum(l), goal, keep);
            && bytes == Sum(rest) == Sum(l) - Sum(victims)
            && Distinct(rest)
            && (forall h :: Has(l, h) <==> Has(rest, h) || Has(victims, h))
            && (forall h :: !(Has(rest, h) && Has(victims, h)))
    decreases |l|
  {
    if Sum(l) > goal && Oldest(l, keep) < |l| {
      var x := l[Oldest(l, keep)];
      var l' := AfterDrop(l, keep);
      AfterDropKeeps(l, keep);
      EvictParts(l', goal, keep);
      var (rest, bytes, vs) := EvictTo(l', Sum(l'), goal, keep);
      SumConcat([x], vs);
      forall h ensures Has([x] + vs, h) <==> x.0 == h || Has(vs, h) {
        HasHead([x] + vs, h);
        assert ([x] + vs)[1..] == vs;
      }
    }
  }

  lemma PrefixSum(x: (Digest, nat), vs: Lru, k: nat)
    requires 0 < k <= |vs|
    ensures Sum(([x] + vs)[..k]) == x.1 + Sum(vs[..k - 1])
  {
    assert ([x] + vs)[..k] == [x] + vs[..k - 1];
    SumConcat([x], vs[..k - 1]);
  }

  lemma {:induction false} EvictPrefix(l: Lru, goal: nat, keep: set<Digest>)
    requires Distinct(l)
    ensures var (rest, bytes, victims) := EvictTo(l, Sum(l), goal, keep);
            && victims <= Without(l, keep)
            && (bytes <= goal || victims == Without(l, keep))
            && (forall k :: 0 <= k < |victims| ==> Sum(l) - Sum(victims[..k]) > goal)
    decreases |l|
  {
    if Sum(l) <= goal {
    } else if Oldest(l, keep) == |l| {
      WithoutAll(l, keep);
    } else {
      var x := l[Oldest(l, keep)];
      var l' := AfterDrop(l, keep);
      AfterDropKeeps(l, keep);
      EvictPrefix(l', goal, keep);
      var (rest, bytes, vs) := EvictTo(l', Sum(l'), goal, keep);
      forall k | 0 <= k < |[x] + vs| ensures Sum(l) - Sum(([x] + vs)[..k]) > goal {
        if k > 0 { PrefixSum(x, vs, k); }
      }
    }
  }

  /** Eviction takes the shortest prefix, in the order of use, of the chunks
      outside `keep` that brings the bytes to the goal, or all of them. */
  lemma EvictTakesShortestPrefix(l: Lru, goal: nat, keep: set<Digest>)
    requires Distinct(l)
    ensures var (rest, bytes, victims) := EvictTo(l, Sum(l), goal, keep);
            && victims <= Without(l, keep)
            && bytes == Sum(rest) == Sum(l) - Sum(victims)
            && Distinct(rest)
            && (forall h :: Has(l, h) <==> Has(rest, h) || Has(victims, h))
            && (forall h :: !(Has(rest, h) && Has(victims, h)))
            && (bytes <= goal || victims == Without(l, keep))
            && (forall k :: 0 <= k < |victims| ==> Sum(l) - Sum(victims[..k]) > goal)
  {
    EvictParts(l, goal, keep);
    EvictPrefix(l, goal, keep);
  }

  lemma EvictKeeps(s: State, goal: nat, keep: set<Digest>)
    requires Inv(s)
    ensures Inv(Evict(s, goal, keep))
    ensures forall h :: Has(Victims(s, goal, keep), h) ==> !Wanted(s, h) && Has(s.lru, h)
    ensures forall h :: Known(s, h) <==> Known(Evict(s, goal, keep), h) || Has(Victims(s, goal, keep), h)
    ensures forall h :: Wanted(Evict(s, goal, keep), h) <==> Wanted(s, h)
    ensures keep == {} ==> Evict(s, goal, keep).bytes <= goal
  {
    EvictTakesShortestPrefix(s.lru, goal, keep);
    if keep == {} {
      WithoutNone(s.lru, {});
    }
  }

  // ---- messages ----------------------------------------------------------------------------------

  datatype Msg =
    | Admit(hash: Digest, len: nat)
    | Touch(hash: Digest)
    | Remove(hash: Digest)
    | Pin(keep: set<Digest>)
    | Hold(id: nat, hashes: seq<Digest>, reply: nat)
    | Release(id: nat)
    | EvictAll(keep: set<Digest>)
    | EvictToBudget(keep: set<Digest>)

  ghost function SetOf(hs: seq<Digest>): set<Digest> {
    set h | h in hs
  }

  ghost function AddHold(holds: map<nat, set<Digest>>, id: nat, hs: set<Digest>): map<nat, set<Digest>> {
    holds[id := (if id in holds then holds[id] else {}) + hs]
  }

  ghost function HoldsAfter(holds: map<nat, set<Digest>>, m: Msg): map<nat, set<Digest>> {
    match m
    case Hold(id, hashes, _) => AddHold(holds, id, SetOf(hashes))
    case Release(id) => holds - {id}
    case _ => holds
  }

  ghost function Touched(s: State, h: Digest): State {
    if Has(s.lru, h) then s.(lru := Without(s.lru, {h}) + [(h, LruLen(s.lru, h))]) else s
  }

  /** The state a message leaves before it evicts; `tail` is the order in which
      chunks that lose their pin go back to the list. */
  ghost predicate Prepared(s: State, m: Msg, tail: Lru, p: State) {
    match m
    case Admit(h, len) => p == Place(s, h, len)
    case Touch(h) => p == Touched(s, h)
    case Remove(h) => p == Removed(s, h)
    case Pin(keep) =>
      var s1 := PinFromLru(s, keep).(pins := keep);
      IsUnwanted(s1, tail) && p == Unpin(s1, tail)
    case Hold(id, hashes, _) => p == PinFromLru(s, SetOf(hashes)).(holds := AddHold(s.holds, id, SetOf(hashes)))
    case Release(id) =>
      if id in s.holds then
        var s1 := s.(holds := s.holds - {id});
        IsUnwanted(s1, tail) && p == Unpin(s1, tail)
      else p == s
    case EvictAll(_) => p == s
    case EvictToBudget(_) => p == s
  }

  /** What a message makes the actor evict down to, and spare. */
  ghost function GoalOf(s: State, m: Msg): Option<(nat, set<Digest>)> {
    match m
    case Admit(_, _) => Some((s.budget, {}))
    case Pin(_) => Some((s.budget, {}))
    case Release(id) => if id in s.holds then Some((s.budget, {})) else None
    case EvictAll(keep) => Some((0, keep))
    case EvictToBudget(keep) => Some((s.budget, keep))
    case _ => None
  }

  ghost predicate HandledBy(s: State, m: Msg, tail: Lru, s': State, victims: Lru) {
    exists p: State :: Prepared(s, m, tail, p) &&
      match GoalOf(s, m)
      case None => s' == p && victims == []
      case Some((goal, keep)) => s' == Evict(p, goal, keep) && victims == Victims(p, goal, keep)
  }

  /** The actor takes `s` to `s'` on message `m`, and evicts `victims`. */
  ghost predicate Handled(s: State, m: Msg, s': State, victims: Lru) {
    exists tail: Lru :: HandledBy(s, m, tail, s', victims)
  }

  lemma TouchKeeps(s: State, h: Digest)
    requires Inv(s)
    ensures Inv(Touched(s, h)) && Touched(s, h).bytes == s.bytes
    ensures forall x :: Known(Touched(s, h), x) <==> Known(s, x)
  {
    if Has(s.lru, h) {
      var rest, x := Without(s.lru, {h}), (h, LruLen(s.lru, h));
      WithoutDistinct(s.lru, {h});
      LruLenSum(s.lru, h);
      SumSnoc(rest, x);
      forall y ensures Has(rest + [x], y) <==> Has(s.lru, y) {
        WithoutHas(s.lru, {h}, y);
        HasSnoc(rest, x, y);
      }
      WithoutHas(s.lru, {h}, h);
      SnocDistinct(rest, x);
      assert forall y :: Wanted(Touched(s, h), y) <==> Wanted(s, y);
    }
  }

  lemma HoldKeeps(s: State, id: nat, hs: set<Digest>)
    requires Inv(s)
    ensures var p := PinFromLru(s, hs).(holds := AddHold(s.holds, id, hs));
            && Inv(p) && p.bytes <= s.bytes
            && (forall x :: Known(p, x) <==> Known(s, x))
  {
    PinFromLruKeeps(s, hs);
    var p := PinFromLru(s, hs).(holds := AddHold(s.holds, id, hs));
    forall x ensures Wanted(p, x) <==> Wanted(s, x) || x in hs {
      if Wanted(s, x) && x !in s.pins {
        var i :| i in s.holds && x in s.holds[i];
        assert i in p.holds && x in p.holds[i];
      }
      if x in hs { assert id in p.holds && x in p.holds[id]; }
    }
  }

  lemma PinKeeps(s: State, keep: set<Digest>, tail: Lru)
    requires Inv(s) && IsUnwanted(PinFromLru(s, keep).(pins := keep), tail)
    ensures var p := Unpin(PinFromLru(s, keep).(pins := keep), tail);
            Inv(p) && forall h :: Known(p, h) <==> Known(s, h)
  {
    PinFromLruKeeps(s, keep);
    var s1 := PinFromLru(s, keep).(pins := keep);
    forall h | Has(s1.lru, h) ensures !Wanted(s1, h) && h !in s1.pinned {
      assert !Wanted(s, h);
    }
    UnpinKeeps(s1, tail);
  }

  lemma ReleaseKeeps(s: State, id: nat, tail: Lru)
    requires Inv(s) && IsUnwanted(s.(holds := s.holds - {id}), tail)
    ensures var p := Unpin(s.(holds := s.holds - {id}), tail);
            Inv(p) && forall h :: Known(p, h) <==> Known(s, h)
  {
    var s1 := s.(holds := s.holds - {id});
    forall h | Has(s1.lru, h) ensures !Wanted(s1, h) && h !in s1.pinned {
      assert !Wanted(s, h);
      assert forall i :: i in s1.holds ==> i in s.holds && s1.holds[i] == s.holds[i];
    }
    UnpinKeeps(s1, tail);
  }

  lemma PreparedKeeps(s: State, m: Msg, tail: Lru, p: State)
    requires Inv(s) && Prepared(s, m, tail, p)
    ensures Inv(p) && p.budget == s.budget
    ensures m.Touch? || m.Hold? || m.Remove? ==> p.bytes <= s.bytes
    ensures !m.Remove? ==> forall h :: Known(p, h) <==> Known(s, h) || (m.Admit? && m.hash == h)
    ensures p.pins == (if m.Pin? then m.keep else s.pins)
    ensures p.holds == HoldsAfter(s.holds, m)
  {
    match m
    case Admit(h, len) => PlaceKeeps(s, h, len);
    case Touch(h) => TouchKeeps(s, h);
    case Remove(h) => RemoveKeeps(s, h);
    case Pin(keep) => PinKeeps(s, keep, tail);
    case Hold(id, hashes, _) => HoldKeeps(s, id, SetOf(hashes));
    case Release(id) => if id in s.holds { ReleaseKeeps(s, id, tail); } else { assert s.holds - {id} == s.holds; }
    case EvictAll(_) =>
    case EvictToBudget(_) =>
  }

  /** Every message keeps the actor sound: the list and the pinned chunks
      disjoint, the counters their sums, pinned exactly what is wanted. What it
      evicts nobody wants, and nothing else it knew is forgotten. After an
      admission, a pin or a release the evictable bytes are within the budget,
      and no other message adds to them. */
  lemma HandleKeeps(s: State, m: Msg, s': State, victims: Lru)
    requires Inv(s) && Handled(s, m, s', victims)
    ensures Inv(s') && s'.budget == s.budget
    ensures forall h :: Has(victims, h) ==> !Wanted(s', h)
    ensures !m.Remove? ==>
              forall h :: Known(s', h) || Has(victims, h) <==> Known(s, h) || (m.Admit? && m.hash == h)
    ensures m.Admit? || m.Pin? || (m.Release? && m.id in s.holds) ==> s'.bytes <= s'.budget
    ensures s.bytes <= s.budget ==> s'.bytes <= s'.budget
    ensures s'.pins == (if m.Pin? then m.keep else s.pins)
    ensures s'.holds == HoldsAfter(s.holds, m)
  {
    var tail: Lru :| HandledBy(s, m, tail, s', victims);
    var p: State :| Prepared(s, m, tail, p) &&
      match GoalOf(s, m)
      case None => s' == p && victims == []
      case Some((goal, keep)) => s' == Evict(p, goal, keep) && victims == Victims(p, goal, keep);
    PreparedKeeps(s, m, tail, p);
    match GoalOf(s, m) {
      case None =>
      case Some((goal, keep)) =>
        EvictKeeps(p, goal, keep);
        EvictTakesShortestPrefix(p.lru, goal, keep);
    }
  }
}
