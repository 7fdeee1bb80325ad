/** What one sweep decides to delete. */
module SweepPlan {
  import opened Wrappers
  import opened StoreKeys

  /** An object as a listing shows it. */
  datatype RemoteObject = RemoteObject(key: string, modified: int)

  const I64_MIN := -0x8000_0000_0000_0000
  const I64_MAX := 0x7fff_ffff_ffff_ffff

  function SaturatingSub(a: int, b: int): int {
    if a - b < I64_MIN then I64_MIN else if a - b > I64_MAX then I64_MAX else a - b
  }

  predicate TooYoung(o: RemoteObject, now: int, grace: int) {
    grace > 0 && SaturatingSub(now, o.modified) < grace
  }

  function Young(now: int, grace: int): RemoteObject -> bool {
    (o: RemoteObject) => TooYoung(o, now, grace)
  }

  /** The saturation never changes the answer. */
  lemma YoungIff(o: RemoteObject, now: int, grace: int)
    requires grace <= I64_MAX
    ensures TooYoung(o, now, grace) <==> grace > 0 && now - o.modified < grace
  {
  }

  // ---- checkpoints ----------------------------------------------------------------------
  //
  // `split` takes a checkpoint object's key to its epoch and file.

  type Parser = string -> Option<(string, string)>

  predicate OfEpoch(split: Parser, o: RemoteObject, epoch: string) {
    split(o.key).Some? && split(o.key).value.0 == epoch
  }

  predicate IsHead(split: Parser, o: RemoteObject, epoch: string) {
    split(o.key) == Some((epoch, HEAD))
  }

  /** The caller names the epoch's head, and it is there. */
  ghost predicate Named(split: Parser, objects: seq<RemoteObject>, live: set<string>, epoch: string) {
    exists k :: 0 <= k < |objects| && IsHead(split, objects[k], epoch) && objects[k].key in live
  }

  ghost predicate HasYoung(split: Parser, objects: seq<RemoteObject>, young: RemoteObject -> bool, epoch: string) {
    exists k :: 0 <= k < |objects| && OfEpoch(split, objects[k], epoch) && young(objects[k])
  }

  /** An epoch is dead if its head is not named and nothing of it is young. */
  ghost predicate DeadEpoch(split: Parser, objects: seq<RemoteObject>, live: set<string>, young: RemoteObject -> bool,
                            epoch: string) {
    !Named(split, objects, live, epoch) && !HasYoung(split, objects, young, epoch)
  }

  /** An object of a dead epoch. */
  ghost predicate DeadObject(split: Parser, objects: seq<RemoteObject>, live: set<string>,
                             young: RemoteObject -> bool, o: RemoteObject) {
    && o in objects && split(o.key).Some?
    && DeadEpoch(split, objects, live, young, split(o.key).value.0)
  }

  /** The head of an epoch that is not dead. */
  ghost predicate LiveHead(split: Parser, objects: seq<RemoteObject>, live: set<string>,
                           young: RemoteObject -> bool, o: RemoteObject) {
    && o in objects && split(o.key).Some? && split(o.key).value.1 == HEAD
    && !DeadEpoch(split, objects, live, young, split(o.key).value.0)
  }

  /** The objects of one epoch. */
  ghost predicate IsGroup(split: Parser, objects: seq<RemoteObject>, epoch: string, group: seq<RemoteObject>) {
    forall o :: o in group <==> o in objects && OfEpoch(split, o, epoch)
  }

  ghost predicate Grouped(split: Parser, objects: seq<RemoteObject>, groups: map<string, seq<RemoteObject>>) {
    && (forall e :: e in groups ==> IsGroup(split, objects, e, groups[e]))
    && (forall o :: o in objects && split(o.key).Some? ==> split(o.key).value.0 in groups)
  }

  method GroupByEpoch(split: Parser, objects: seq<RemoteObject>) returns (groups: map<string, seq<RemoteObject>>)
    ensures Grouped(split, objects, groups)
  {
    groups := map[];
    var n := 0;
    while n < |objects|
      invariant 0 <= n <= |objects| && Grouped(split, objects[..n], groups)
    {
      var o := objects[n];
      assert objects[..n + 1] == objects[..n] + [o];
      if split(o.key).Some? {
        var e := split(o.key).value.0;
        groups := groups[e := (if e in groups then groups[e] else []) + [o]];
      }
      n := n + 1;
    }
    assert objects[..n] == objects;
  }

  method FindHead(split: Parser, group: seq<RemoteObject>, epoch: string) returns (head: Option<RemoteObject>)
    requires forall o :: o in group ==> OfEpoch(split, o, epoch)
    ensures head.Some? ==> head.value in group && IsHead(split, head.value, epoch)
    ensures head.None? ==> forall o :: o in group ==> !IsHead(split, o, epoch)
  {
    var n := 0;
    while n < |group|
      invariant 0 <= n <= |group| && forall k :: 0 <= k < n ==> !IsHead(split, group[k], epoch)
    {
      assert group[n] in group;
      if split(group[n].key).value.1 == HEAD {
        return Some(group[n]);
      }
      n := n + 1;
    }
    return None;
  }

  method Any(group: seq<RemoteObject>, young: RemoteObject -> bool) returns (r: bool)
    ensures r <==> exists o :: o in group && young(o)
  {
    var n := 0;
    while n < |group|
      invariant 0 <= n <= |group| && forall k :: 0 <= k < n ==> !young(group[k])
    {
      if young(group[n]) { return true; }
      n := n + 1;
    }
    return false;
  }

  ghost predicate OneKeyEach(split: Parser) {
    forall a, b :: split(a).Some? && split(a) == split(b) ==> a == b
  }

  /** What is decided of one epoch. */
  lemma EpochDecided(split: Parser, objects: seq<RemoteObject>, live: set<string>, young: RemoteObject -> bool,
                     e: string, group: seq<RemoteObject>, head: Option<RemoteObject>)
    requires OneKeyEach(split) && IsGroup(split, objects, e, group)
    requires head.Some? ==> head.value in group && IsHead(split, head.value, e)
    requires head.None? ==> forall o :: o in group ==> !IsHead(split, o, e)
    ensures Named(split, objects, live, e) <==> head.Some? && head.value.key in live
    ensures HasYoung(split, objects, young, e) <==> exists o :: o in group && young(o)
  {
    if Named(split, objects, live, e) {
      var k :| 0 <= k < |objects| && IsHead(split, objects[k], e) && objects[k].key in live;
      assert objects[k] in group;
    }
    if head.Some? {
      var k :| 0 <= k < |objects| && objects[k] == head.value;
    }
    if o :| o in group && young(o) {
      var k :| 0 <= k < |objects| && objects[k] == o;
    }
  }

  function KeysOf(group: seq<RemoteObject>): (r: seq<string>)
    ensures forall key :: key in r <==> exists o :: o in group && o.key == key
  {
    if |group| == 0 then []
    else
      var r := KeysOf(group[..|group| - 1]) + [group[|group| - 1].key];
      assert forall o :: o in group <==> o in group[..|group| - 1] || o == group[|group| - 1];
      r
  }

  /** What is planned so far: the epochs not in `left`. */
  ghost predicate Planned(split: Parser, objects: seq<RemoteObject>, live: set<string>, young: RemoteObject -> bool,
                          left: set<string>, dead: seq<string>, heads: seq<string>) {
    && (forall key :: key in dead <==>
          exists o :: DeadObject(split, objects, live, young, o) && o.key == key && split(key).value.0 !in left)
    && (forall key :: key in heads <==>
          exists o :: LiveHead(split, objects, live, young, o) && o.key == key && split(key).value.0 !in left)
  }

  lemma PlanKeeps(split: Parser, objects: seq<RemoteObject>, live: set<string>, young: RemoteObject -> bool,
                  left: set<string>, dead: seq<string>, heads: seq<string>, e: string, group: seq<RemoteObject>,
                  head: Option<RemoteObject>)
    requires Planned(split, objects, live, young, left, dead, heads) && e in left
    requires OneKeyEach(split) && IsGroup(split, objects, e, group) && !DeadEpoch(split, objects, live, young, e)
    requires head.Some? ==> head.value in group && IsHead(split, head.value, e)
    requires head.None? ==> forall o :: o in group ==> !IsHead(split, o, e)
    ensures Planned(split, objects, live, young, left - {e}, dead,
                    if head.Some? then heads + [head.value.key] else heads)
  {
    var heads' := if head.Some? then heads + [head.value.key] else heads;
    forall key ensures key in heads' <==>
      exists o :: LiveHead(split, objects, live, young, o) && o.key == key && split(key).value.0 !in left - {e}
    {
      if o :| LiveHead(split, objects, live, young, o) && o.key == key && split(key).value.0 == e {
        assert o in group && IsHead(split, o, e);
        assert key == head.value.key;
      }
      if head.Some? && key == head.value.key {
        assert LiveHead(split, objects, live, young, head.value);
      }
    }
  }

  lemma PlanDrops(split: Parser, objects: seq<RemoteObject>, live: set<string>, young: RemoteObject -> bool,
                  left: set<string>, dead: seq<string>, heads: seq<string>, e: string, group: seq<RemoteObject>)
    requires Planned(split, objects, live, young, left, dead, heads) && e in left
    requires IsGroup(split, objects, e, group) && DeadEpoch(split, objects, live, young, e)
    ensures Planned(split, objects, live, young, left - {e}, dead + KeysOf(group), heads)
  {
    forall key ensures key in dead + KeysOf(group) <==>
      exists o :: DeadObject(split, objects, live, young, o) && o.key == key && split(key).value.0 !in left - {e}
    {
      if o :| DeadObject(split, objects, live, young, o) && o.key == key && split(key).value.0 == e {
        assert o in group;
      }
      if key in KeysOf(group) {
        var o :| o in group && o.key == key;
        assert DeadObject(split, objects, live, young, o);
      }
    }
  }

  /** Pass 1. An epoch whose head is not named is dead, whole, unless something
      of it is inside the grace. The heads of the others survive. */
  method PlanSnapshots(split: Parser, objects: seq<RemoteObject>, live: set<string>, young: RemoteObject -> bool)
    returns (dead: seq<string>, heads: seq<string>)
    requires OneKeyEach(split)
    ensures Planned(split, objects, live, young, {}, dead, heads)
  {
    var groups := GroupByEpoch(split, objects);
    dead, heads := [], [];
    var left := groups.Keys;
    while left != {}
      invariant left <= groups.Keys && Planned(split, objects, live, young, left, dead, heads)
      decreases left
    {
      var e :| e in left;
      var group := groups[e];
      var head := FindHead(split, group, e);
      var recent := Any(group, young);
      EpochDecided(split, objects, live, young, e, group, head);
      if head.Some? && head.value.key in live {
        PlanKeeps(split, objects, live, young, left, dead, heads, e, group, head);
        heads := heads + [head.value.key];
      } else if recent {
        PlanKeeps(split, objects, live, young, left, dead, heads, e, group, head);
        if head.Some? {
          heads := heads + [head.value.key];
        }
      } else {
        PlanDrops(split, objects, live, young, left, dead, heads, e, group);
        dead := dead + KeysOf(group);
      }
      left := left - {e};
    }
  }

  /** An epoch is planned whole or not at all. */
  lemma WholeEpochs(split: Parser, objects: seq<RemoteObject>, live: set<string>, young: RemoteObject -> bool,
                    dead: seq<string>, heads: seq<string>, a: RemoteObject, b: RemoteObject, e: string)
    requires Planned(split, objects, live, young, {}, dead, heads)
    requires a in objects && b in objects && OfEpoch(split, a, e) && OfEpoch(split, b, e)
    ensures a.key in dead <==> b.key in dead
  {
    if a.key in dead {
      assert DeadObject(split, objects, live, young, b);
    }
    if b.key in dead {
      assert DeadObject(split, objects, live, young, a);
    }
  }

  // ---- layers and chunks --------------------------------------------------------------------

  ghost predicate Unnamed(idOf: string -> Option<string>, live: set<string>, young: RemoteObject -> bool,
                          o: RemoteObject) {
    idOf(o.key).Some? && idOf(o.key).value !in live && !young(o)
  }

  /** Passes 2 and 3. A manifest no one names, a chunk no surviving manifest
      names, are dead unless inside the grace. */
  method PlanById(idOf: string -> Option<string>, objects: seq<RemoteObject>, live: set<string>,
                  young: RemoteObject -> bool) returns (dead: seq<string>)
    ensures forall key :: key in dead <==> exists o :: o in objects && o.key == key && Unnamed(idOf, live, young, o)
  {
    dead := [];
    var n := 0;
    while n < |objects|
      invariant 0 <= n <= |objects|
      invariant forall key :: key in dead <==>
                  exists o :: o in objects[..n] && o.key == key && Unnamed(idOf, live, young, o)
    {
      var o := objects[n];
      assert objects[..n + 1] == objects[..n] + [o];
      var id := idOf(o.key);
      if id.Some? && !(id.value in live || young(o)) {
        dead := dead + [o.key];
      }
      n := n + 1;
    }
    assert objects[..n] == objects;
  }
}
