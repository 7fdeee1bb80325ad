/** The actor itself: fields that each message updates in place. */
module CacheActor {
  import opened Wrappers
  import opened Layers
  import opened CacheBudget
  import opened CacheOrder

  lemma PinnedSum(s: State, hs: set<Digest>)
    requires Inv(s)
    ensures PinFromLru(s, hs).pinnedBytes == MapSum(PinFromLru(s, hs).pinned)
  {
    PinFromLruKeeps(s, hs);
  }

  lemma PinIsHandled(s: State, keep: set<Digest>, tail: Lru)
    requires IsUnwanted(PinFromLru(s, keep).(pins := keep), tail)
    ensures var p := Unpin(PinFromLru(s, keep).(pins := keep), tail);
            Handled(s, Pin(keep), Evict(p, s.budget, {}), Victims(p, s.budget, {}))
  {
    var p := Unpin(PinFromLru(s, keep).(pins := keep), tail);
    assert Prepared(s, Pin(keep), tail, p);
    assert HandledBy(s, Pin(keep), tail, Evict(p, s.budget, {}), Victims(p, s.budget, {}));
  }

  lemma NoHoldIsHandled(s: State, id: nat)
    requires id !in s.holds
    ensures Handled(s, Release(id), s, []) && Keys([]) == {}
  {
    assert Prepared(s, Release(id), [], s);
    assert HandledBy(s, Release(id), [], s, []);
  }

  lemma ReleaseIsHandled(s: State, id: nat, tail: Lru)
    requires id in s.holds && IsUnwanted(s.(holds := s.holds - {id}), tail)
    ensures var p := Unpin(s.(holds := s.holds - {id}), tail);
            Handled(s, Release(id), Evict(p, s.budget, {}), Victims(p, s.budget, {}))
  {
    var p := Unpin(s.(holds := s.holds - {id}), tail);
    assert Prepared(s, Release(id), tail, p);
    assert HandledBy(s, Release(id), tail, Evict(p, s.budget, {}), Victims(p, s.budget, {}));
  }

  lemma {:induction false} TakenNone(l: Lru)
    ensures Taken(l, {}) == map[]
  {
    if |l| > 0 { TakenNone(l[1..]); }
  }

  lemma PinNone(s: State)
    ensures PinFromLru(s, {}) == s
  {
    WithoutNone(s.lru, {});
    TakenNone(s.lru);
  }

  lemma {:induction false} WithoutTwice(l: Lru, hs: set<Digest>, h: Digest)
    ensures Without(Without(l, hs), {h}) == Without(l, hs + {h})
  {
    if |l| > 0 {
      WithoutTwice(l[1..], hs, h);
      if l[0].0 !in hs { assert Without(l, hs)[1..] == Without(l[1..], hs); }
    }
  }

  lemma {:induction false} TakenOneMore(l: Lru, hs: set<Digest>, h: Digest)
    requires Distinct(l)
    ensures Taken(l, hs + {h}) ==
            if Has(Without(l, hs), h) then Taken(l, hs)[h := LruLen(Without(l, hs), h)] else Taken(l, hs)
  {
    if |l| > 0 {
      TakenOneMore(l[1..], hs, h);
      if l[0].0 in hs {
        WithoutHas(l[1..], hs, h);
        assert !Has(l[1..], l[0].0);
      } else {
        HasHead(Without(l, hs), h);
        assert Without(l, hs)[1..] == Without(l[1..], hs);
        if l[0].0 == h {
          assert !Has(l[1..], h);
          WithoutHas(l[1..], hs, h);
        }
      }
    }
  }

  /** One more chunk taken from a list. */
  lemma TakesOneMore(l: Lru, hs: set<Digest>, h: Digest)
    requires Distinct(l)
    ensures var w := Without(l, hs);
            if Has(w, h) then
              && Without(l, hs + {h}) == Without(w, {h})
              && Taken(l, hs + {h}) == Taken(l, hs)[h := LruLen(w, h)]
              && MapSum(Taken(l, hs + {h})) == MapSum(Taken(l, hs)) + LruLen(w, h) <= Sum(l)
            else
              Without(l, hs + {h}) == w && Taken(l, hs + {h}) == Taken(l, hs)
  {
    var w := Without(l, hs);
    WithoutTwice(l, hs, h);
    TakenOneMore(l, hs, h);
    if Has(w, h) {
      SumSplit(l, hs + {h});
      TakenKeys(l, hs, h);
      WithoutHas(l, hs, h);
      MapSumAdd(Taken(l, hs), h, LruLen(w, h));
    } else {
      WithoutNoneHas(w, h);
    }
  }

  lemma UnionUpdate(a: map<Digest, nat>, b: map<Digest, nat>, h: Digest, len: nat)
    ensures (a + b)[h := len] == a + b[h := len]
  {
  }

  ghost function PinOne(p: State, h: Digest): State {
    if Has(p.lru, h) then
      var len := LruLen(p.lru, h);
      p.(lru := Without(p.lru, {h}), bytes := SatSub(p.bytes, len), pinned := p.pinned[h := len],
         pinnedBytes := p.pinnedBytes + len)
    else p
  }

  lemma PinOneMore(s: State, hs: set<Digest>, h: Digest)
    requires Distinct(s.lru) && s.bytes == Sum(s.lru)
    ensures PinFromLru(s, hs + {h}) == PinOne(PinFromLru(s, hs), h)
  {
    TakesOneMore(s.lru, hs, h);
    UnionUpdate(s.pinned, Taken(s.lru, hs), h, LruLen(Without(s.lru, hs), h));
  }

  /** The unwanted chunks are those already listed and those still to do. */
  ghost predicate UnpinLeft(s: State, todo: set<Digest>, tail: Lru) {
    && s.pinnedBytes == MapSum(s.pinned)
    && Distinct(tail)
    && (forall h :: h in todo || Has(tail, h) <==> h in s.pinned && !Wanted(s, h))
    && (forall h :: h in todo ==> !Has(tail, h))
    && (forall i :: 0 <= i < |tail| ==> tail[i].0 in s.pinned && s.pinned[tail[i].0] == tail[i].1)
  }

  ghost predicate Unpinning(s: State, todo: set<Digest>, tail: Lru, p: State) {
    UnpinLeft(s, todo, tail) && p == Unpin(s, tail)
  }

  ghost function UnpinOne(p: State, h: Digest): State
    requires h in p.pinned
  {
    p.(lru := p.lru + [(h, p.pinned[h])], bytes := p.bytes + p.pinned[h], pinned := p.pinned - {h},
       pinnedBytes := SatSub(p.pinnedBytes, p.pinned[h]))
  }

  lemma UnpinEnds(s: State, tail: Lru, p: State)
    requires Unpinning(s, {}, tail, p)
    ensures IsUnwanted(s, tail) && p == Unpin(s, tail)
  {
  }

  lemma UnpinBegins(s: State, todo: set<Digest>)
    requires s.pinnedBytes == MapSum(s.pinned) && forall h :: h in todo <==> h in s.pinned && !Wanted(s, h)
    ensures Unpinning(s, todo, [], s)
  {
    assert Keys([]) == {} && s.pinned - {} == s.pinned && s.lru + [] == s.lru;
  }

  lemma UnpinLeftNext(s: State, todo: set<Digest>, tail: Lru, h: Digest)
    requires UnpinLeft(s, todo, tail) && h in todo
    ensures UnpinLeft(s, todo - {h}, tail + [(h, s.pinned[h])])
  {
    var x := (h, s.pinned[h]);
    forall y ensures Has(tail + [x], y) <==> Has(tail, y) || y == h { HasSnoc(tail, x, y); }
    SnocDistinct(tail, x);
  }

  lemma KeysSnoc(l: Lru, x: (Digest, nat))
    ensures Keys(l + [x]) == Keys(l) + {x.0}
  {
    forall h ensures h in Keys(l + [x]) <==> h in Keys(l) || h == x.0 {
      KeysHas(l, h);
      KeysHas(l + [x], h);
      HasSnoc(l, x, h);
    }
  }

  lemma UnpinOneMore(s: State, tail: Lru, x: (Digest, nat))
    requires s.pinnedBytes == MapSum(s.pinned)
    requires Distinct(tail) && forall i :: 0 <= i < |tail| ==> tail[i].0 in s.pinned && s.pinned[tail[i].0] == tail[i].1
    requires !Has(tail, x.0)
    ensures var p := Unpin(s, tail);
            Unpin(s, tail + [x]) ==
            p.(lru := p.lru + [x], bytes := p.bytes + x.1, pinned := p.pinned - {x.0},
               pinnedBytes := SatSub(p.pinnedBytes, x.1))
  {
    SumSnoc(tail, x);
    TailSum(s.pinned, tail);
    assert s.lru + (tail + [x]) == s.lru + tail + [x];
    KeysSnoc(tail, x);
    assert s.pinned - (Keys(tail) + {x.0}) == s.pinned - Keys(tail) - {x.0};
  }

  lemma UnpinStep(s: State, todo: set<Digest>, tail: Lru, p: State, h: Digest)
    requires Unpinning(s, todo, tail, p) && h in todo
    ensures h in p.pinned && p.pinned[h] == s.pinned[h]
    ensures Unpinning(s, todo - {h}, tail + [(h, p.pinned[h])], UnpinOne(p, h))
  {
    KeysHas(tail, h);
    UnpinOneMore(s, tail, (h, s.pinned[h]));
    UnpinLeftNext(s, todo, tail, h);
  }

  lemma {:induction false} OldestAt(l: Lru, keep: set<Digest>, i: nat)
    requires i <= |l| && (forall k :: 0 <= k < i ==> l[k].0 in keep) && (i < |l| ==> l[i].0 !in keep)
    ensures Oldest(l, keep) == i
  {
  }

  /** What is evicted in all is `gone`, and what is evicted from here on. */
  ghost predicate Evicting(l: Lru, b: nat, goal: nat, keep: set<Digest>, lru: Lru, bytes: nat, gone: Lru) {
    var r := EvictTo(lru, bytes, goal, keep);
    EvictTo(l, b, goal, keep) == (r.0, r.1, gone + r.2)
  }

  lemma EvictBegins(l: Lru, b: nat, goal: nat, keep: set<Digest>)
    ensures Evicting(l, b, goal, keep, l, b, []) && Keys([]) == {}
  {
    assert [] + EvictTo(l, b, goal, keep).2 == EvictTo(l, b, goal, keep).2;
  }

  lemma EvictStep(l: Lru, b: nat, goal: nat, keep: set<Digest>, lru: Lru, bytes: nat, gone: Lru)
    requires Evicting(l, b, goal, keep, lru, bytes, gone) && bytes > goal && Oldest(lru, keep) < |lru|
    ensures var x := lru[Oldest(lru, keep)];
            && Evicting(l, b, goal, keep, AfterDrop(lru, keep), SatSub(bytes, x.1), gone + [x])
            && Keys(gone + [x]) == Keys(gone) + {x.0} && Sum(gone + [x]) == Sum(gone) + x.1
  {
    var x := lru[Oldest(lru, keep)];
    var vs := EvictTo(AfterDrop(lru, keep), SatSub(bytes, x.1), goal, keep).2;
    assert gone + ([x] + vs) == (gone + [x]) + vs;
    SumSnoc(gone, x);
    KeysSnoc(gone, x);
  }

  lemma EvictEnds(l: Lru, b: nat, goal: nat, keep: set<Digest>, lru: Lru, bytes: nat, gone: Lru)
    requires Evicting(l, b, goal, keep, lru, bytes, gone) && (bytes <= goal || Oldest(lru, keep) == |lru|)
    ensures EvictTo(l, b, goal, keep) == (lru, bytes, gone)
  {
    assert gone + [] == gone;
  }

  class Actor {
    const budget: nat
    var lru: Lru
    var bytes: nat
    var pinned: map<Digest, nat>
    var pinnedBytes: nat
    var pins: set<Digest>
    var holds: map<nat, set<Digest>>
    var evictedEntries: nat
    var evictedBytes: nat
    /** The chunk files, which eviction unlinks. */
    var files: set<Digest>

    ghost function Value(): State
      reads this
    {
      State(budget, lru, bytes, pinned, pinnedBytes, pins, holds)
    }

    /** Adopts the chunk files there are, oldest first. */
    constructor (budget: nat, found: Lru)
      requires Distinct(found)
      ensures Inv(Value()) && this.budget == budget && lru == found && pins == {} && holds == map[]
      ensures forall h :: h in files <==> Has(found, h)
    {
      this.budget, lru, bytes := budget, found, Sum(found);
      pinned, pinnedBytes, pins, holds := map[], 0, {}, map[];
      evictedEntries, evictedBytes := 0, 0;
      files := set i | 0 <= i < |found| :: found[i].0;
    }

    predicate IsWanted(h: Digest)
      reads this
    {
      h in pins || exists id :: id in holds && h in holds[id]
    }

    /** Takes a chunk out of the list and of the pinned ones. */
    method ForgetChunk(h: Digest)
      modifies this`lru, this`bytes, this`pinned, this`pinnedBytes
      ensures Value() == Removed(old(Value()), h)
    {
      if Has(lru, h) {
        bytes := SatSub(bytes, LruLen(lru, h));
        lru := Without(lru, {h});
      } else {
        WithoutNoneHas(lru, h);
      }
      if h in pinned {
        pinnedBytes := SatSub(pinnedBytes, pinned[h]);
        pinned := pinned - {h};
      } else {
        assert pinned - {h} == pinned;
      }
    }

    method PlaceChunk(h: Digest, len: nat)
      modifies this`lru, this`bytes, this`pinned, this`pinnedBytes
      ensures Value() == Place(old(Value()), h, len)
      ensures forall x, n: nat :: Counts(Value(), x, n) <==> if x == h then n == len else Counts(old(Value()), x, n)
    {
      ghost var s := Value();
      ForgetChunk(h);
      if IsWanted(h) {
        pinned := pinned[h := len];
        pinnedBytes := pinnedBytes + len;
      } else {
        lru := lru + [(h, len)];
        bytes := bytes + len;
      }
      forall x, n: nat ensures Counts(Place(s, h, len), x, n) <==> if x == h then n == len else Counts(s, x, n) {
        PlaceCounts(s, h, len, x, n);
      }
    }

    /** Takes a chunk, if it is in it, out of the list. */
    method PinChunk(h: Digest)
      modifies this`lru, this`bytes, this`pinned, this`pinnedBytes
      ensures Value() == PinOne(old(Value()), h)
    {
      if Has(lru, h) {
        var len := LruLen(lru, h);
        lru := Without(lru, {h});
        bytes := SatSub(bytes, len);
        pinned := pinned[h := len];
        pinnedBytes := pinnedBytes + len;
      }
    }

    /** Takes all of these chunks that are in it out of the list. */
    method PinChunks(hs: seq<Digest>)
      requires Inv(Value())
      modifies this`lru, this`bytes, this`pinned, this`pinnedBytes
      ensures Value() == PinFromLru(old(Value()), SetOf(hs))
    {
      ghost var s := Value();
      var k := 0;
      PinNone(s);
      assert SetOf(hs[..0]) == {};
      while k < |hs|
        invariant 0 <= k <= |hs|
        invariant Value() == PinFromLru(s, SetOf(hs[..k]))
      {
        var h := hs[k];
        assert SetOf(hs[..k + 1]) == SetOf(hs[..k]) + {h};
        PinOneMore(s, SetOf(hs[..k]), h);
        PinChunk(h);
        k := k + 1;
      }
      assert hs[..k] == hs;
    }

    /** Puts one pinned chunk back into the list. */
    method UnpinChunk(h: Digest)
      requires h in pinned
      modifies this`lru, this`bytes, this`pinned, this`pinnedBytes
      ensures Value() == UnpinOne(old(Value()), h)
    {
      var len := pinned[h];
      pinned := pinned - {h};
      pinnedBytes := SatSub(pinnedBytes, len);
      lru := lru + [(h, len)];
      bytes := bytes + len;
    }

    /** Puts the pinned chunks that nobody wants back into the list, in
        whatever order they come. */
    method UnpinUnwanted() returns (ghost tail: Lru)
      modifies this`lru, this`bytes, this`pinned, this`pinnedBytes
      requires pinnedBytes == MapSum(pinned)
      ensures IsUnwanted(old(Value()), tail)
      ensures Value() == Unpin(old(Value()), tail)
    {
      ghost var s := Value();
      var todo := set h | h in pinned && !IsWanted(h);
      tail := [];
      UnpinBegins(s, todo);
      while todo != {}
        invariant Unpinning(s, todo, tail, Value())
        decreases |todo|
      {
        var h :| h in todo;
        UnpinStep(s, todo, tail, Value(), h);
        tail := tail + [(h, pinned[h])];
        UnpinChunk(h);
        todo := todo - {h};
      }
      UnpinEnds(s, tail, Value());
    }

    /** Evicts the least recently used chunk outside `keep`. */
    method DropOldest(keep: set<Digest>) returns (r: Option<nat>)
      modifies this`lru, this`bytes, this`files
      ensures r.None? <==> Oldest(old(lru), keep) == |old(lru)|
      ensures r.None? ==> lru == old(lru) && bytes == old(bytes) && files == old(files)
      ensures r.Some? ==>
                var x := old(lru)[Oldest(old(lru), keep)];
                lru == AfterDrop(old(lru), keep) && bytes == SatSub(old(bytes), x.1)
                && files == old(files) - {x.0} && r.value == x.1
    {
      ghost var l := lru;
      var skipped: Lru := [];
      while |lru| > 0 && lru[0].0 in keep
        invariant l == skipped + lru && bytes == old(bytes) && files == old(files)
        invariant forall i :: 0 <= i < |skipped| ==> skipped[i].0 in keep
        decreases |lru|
      {
        skipped := skipped + [lru[0]];
        lru := lru[1..];
      }
      OldestAt(l, keep, |skipped|);
      if |lru| == 0 {
        lru := lru + skipped;
        return None;
      }
      var (h, len) := lru[0];
      assert l[|skipped|] == (h, len);
      assert l[..|skipped|] == skipped && l[|skipped| + 1..] == lru[1..];
      lru := lru[1..] + skipped;
      files := files - {h};
      bytes := SatSub(bytes, len);
      return Some(len);
    }

    /** Evicts until the evictable bytes are within `goal`, and counts what it
        freed. */
    method EvictUntil(goal: nat, keep: set<Digest>) returns (removed: nat, freed: nat)
      modifies this`lru, this`bytes, this`files, this`evictedEntries, this`evictedBytes
      ensures Value() == Evict(old(Value()), goal, keep)
      ensures files == old(files) - Keys(Victims(old(Value()), goal, keep))
      ensures removed == |Victims(old(Value()), goal, keep)|
      ensures freed == Sum(Victims(old(Value()), goal, keep))
      ensures evictedEntries == old(evictedEntries) + removed && evictedBytes == old(evictedBytes) + freed
    {
      ghost var l, b, f := lru, bytes, files;
      var beforeEntries, beforeBytes := evictedEntries, evictedBytes;
      ghost var gone: Lru := [];
      EvictBegins(l, b, goal, keep);
      while bytes > goal
        invariant Evicting(l, b, goal, keep, lru, bytes, gone)
        invariant files == f - Keys(gone)
        invariant evictedEntries == beforeEntries + |gone| && evictedBytes == beforeBytes + Sum(gone)
        decreases |lru|
      {
        ghost var l1, b1 := lru, bytes;
        var dropped := DropOldest(keep);
        if dropped.None? { break; }
        EvictStep(l, b, goal, keep, l1, b1, gone);
        gone := gone + [l1[Oldest(l1, keep)]];
        evictedEntries := evictedEntries + 1;
        evictedBytes := evictedBytes + dropped.value;
      }
      EvictEnds(l, b, goal, keep, lru, bytes, gone);
      return evictedEntries - beforeEntries, evictedBytes - beforeBytes;
    }

    method OnAdmit(h: Digest, len: nat) returns (ghost victims: Lru)
      requires Inv(Value())
      modifies this
      ensures Handled(old(Value()), Admit(h, len), Value(), victims)
      ensures files == old(files) - Keys(victims)
      ensures evictedEntries == old(evictedEntries) + |victims| && evictedBytes == old(evictedBytes) + Sum(victims)
    {
      ghost var s := Value();
      PlaceChunk(h, len);
      ghost var p := Value();
      victims := Victims(p, budget, {});
      var _, _ := EvictUntil(budget, {});
      assert Prepared(s, Admit(h, len), [], p);
      assert HandledBy(s, Admit(h, len), [], Value(), victims);
    }

    method OnTouch(h: Digest)
      requires Inv(Value())
      modifies this`lru
      ensures Handled(old(Value()), Touch(h), Value(), [])
    {
      ghost var s := Value();
      if Has(lru, h) {
        lru := Without(lru, {h}) + [(h, LruLen(lru, h))];
      }
      assert Prepared(s, Touch(h), [], Value());
      assert HandledBy(s, Touch(h), [], Value(), []);
    }

    method OnRemove(h: Digest)
      requires Inv(Value())
      modifies this`lru, this`bytes, this`pinned, this`pinnedBytes
      ensures Handled(old(Value()), Remove(h), Value(), [])
    {
      ghost var s := Value();
      ForgetChunk(h);
      assert Prepared(s, Remove(h), [], Value());
      assert HandledBy(s, Remove(h), [], Value(), []);
    }

    /** Takes the pinned chunks out of the list, and puts back those no longer
        wanted. */
    method Repin(keep: set<Digest>, order: seq<Digest>) returns (ghost tail: Lru)
      requires Inv(Value()) && SetOf(order) == keep
      modifies this`lru, this`bytes, this`pinned, this`pinnedBytes, this`pins
      ensures IsUnwanted(PinFromLru(old(Value()), keep).(pins := keep), tail)
      ensures Value() == Unpin(PinFromLru(old(Value()), keep).(pins := keep), tail)
    {
      PinnedSum(Value(), keep);
      PinChunks(order);
      pins := keep;
      tail := UnpinUnwanted();
    }

    /** `order` lists `keep` as the pins are walked. */
    method OnPin(keep: set<Digest>, order: seq<Digest>) returns (ghost victims: Lru)
      requires Inv(Value()) && SetOf(order) == keep
      modifies this
      ensures Handled(old(Value()), Pin(keep), Value(), victims)
      ensures files == old(files) - Keys(victims)
      ensures evictedEntries == old(evictedEntries) + |victims| && evictedBytes == old(evictedBytes) + Sum(victims)
    {
      ghost var s := Value();
      ghost var tail := Repin(keep, order);
      victims := Victims(Value(), budget, {});
      PinIsHandled(s, keep, tail);
      var _, _ := EvictUntil(budget, {});
    }

    method OnHold(id: nat, hashes: seq<Digest>, reply: nat)
      requires Inv(Value())
      modifies this`lru, this`bytes, this`pinned, this`pinnedBytes, this`holds
      ensures Handled(old(Value()), Hold(id, hashes, reply), Value(), [])
    {
      ghost var s := Value();
      PinChunks(hashes);
      holds := holds[id := (if id in holds then holds[id] else {}) + (set h | h in hashes)];
      assert Prepared(s, Hold(id, hashes, reply), [], Value());
      assert HandledBy(s, Hold(id, hashes, reply), [], Value(), []);
    }

    /** Ends a hold, and puts back the chunks no longer wanted. */
    method Unhold(id: nat) returns (ghost tail: Lru)
      requires pinnedBytes == MapSum(pinned)
      modifies this`lru, this`bytes, this`pinned, this`pinnedBytes, this`holds
      ensures IsUnwanted(old(Value()).(holds := old(holds) - {id}), tail)
      ensures Value() == Unpin(old(Value()).(holds := old(holds) - {id}), tail)
    {
      holds := holds - {id};
      tail := UnpinUnwanted();
    }

    method OnRelease(id: nat) returns (ghost victims: Lru)
      requires Inv(Value())
      modifies this
      ensures Handled(old(Value()), Release(id), Value(), victims)
      ensures files == old(files) - Keys(victims)
      ensures evictedEntries == old(evictedEntries) + |victims| && evictedBytes == old(evictedBytes) + Sum(victims)
    {
      ghost var s := Value();
      if id !in holds {
        NoHoldIsHandled(s, id);
        return [];
      }
      ghost var tail := Unhold(id);
      victims := Victims(Value(), budget, {});
      ReleaseIsHandled(s, id, tail);
      var _, _ := EvictUntil(budget, {});
    }

    method OnEvict(goal: nat, keep: set<Digest>, m: Msg) returns (ghost victims: Lru)
      requires Inv(Value())
      requires (m == EvictAll(keep) && goal == 0) || (m == EvictToBudget(keep) && goal == budget)
      modifies this
      ensures Handled(old(Value()), m, Value(), victims)
      ensures files == old(files) - Keys(victims)
      ensures evictedEntries == old(evictedEntries) + |victims| && evictedBytes == old(evictedBytes) + Sum(victims)
    {
      ghost var s := Value();
      victims := Victims(s, goal, keep);
      var _, _ := EvictUntil(goal, keep);
      assert Prepared(s, m, [], s);
      assert HandledBy(s, m, [], Value(), victims);
    }

    /** One message. The files it unlinks are those of the chunks it evicts. */
    method Handle(m: Msg, order: seq<Digest>) returns (ghost victims: Lru)
      requires Inv(Value())
      requires m.Pin? ==> SetOf(order) == m.keep
      modifies this
      ensures Handled(old(Value()), m, Value(), victims)
      ensures Inv(Value())
      ensures files == old(files) - Keys(victims)
      ensures evictedEntries == old(evictedEntries) + |victims| && evictedBytes == old(evictedBytes) + Sum(victims)
      ensures forall x, n: nat :: Counts(Value(), x, n) || (x, n) in victims <==>
                m == Admit(x, n) || (Counts(old(Value()), x, n) && !Renews(m, x))
    {
      ghost var s := Value();
      victims := [];
      assert Keys([]) == {};
      match m {
        case Admit(h, len) => victims := OnAdmit(h, len);
        case Touch(h) => OnTouch(h);
        case Remove(h) => OnRemove(h);
        case Pin(keep) => victims := OnPin(keep, order);
        case Hold(id, hashes, reply) => OnHold(id, hashes, reply);
        case Release(id) => victims := OnRelease(id);
        case EvictAll(keep) => victims := OnEvict(0, keep, m);
        case EvictToBudget(keep) => victims := OnEvict(budget, keep, m);
      }
      HandleKeeps(s, m, Value(), victims);
      forall x, n: nat ensures Counts(Value(), x, n) || (x, n) in victims <==>
                               m == Admit(x, n) || (Counts(s, x, n) && !Renews(m, x)) {
        HandleCounts(s, m, Value(), victims, x, n);
      }
    }
  }
}
