/** A restored guest over its whole life: its threads wait for pages, its faults
    are answered or fail, it writes its pages and gives pages back. */
module UffdRuns {
  import opened Arithmetic
  import opened Layers
  import opened RemovedPages
  import opened UffdFill
  import opened UffdServe

  /** The pages present, the pages marked as given back, what each page owes the
      guest (its last write, else zeros once it was given back, else what the
      snapshot has), and the pages threads wait for. */
  datatype Guest = Guest(mem: map<nat, seq<Byte>>, marked: set<nat>, owed: map<nat, seq<Byte>>, waiting: set<nat>)

  datatype Step =
    | Wait(page: nat)
    | Fault(region: nat, page: nat)
    | FailedFault(region: nat, page: nat)
    | Write(page: nat, bytes: seq<Byte>)
    | Release(start: nat, end: nat)

  ghost predicate HostPage(vm: Vm, k: nat, a: nat) {
    k < |vm.regions| && Contains(vm.regions[k], a) && a % vm.ps == 0
  }

  function PageCount(vm: Vm): nat {
    (vm.g.size + vm.ps - 1) / vm.ps
  }

  lemma ImageFits(vm: Vm, k: nat, a: nat)
    requires VmOk(vm) && HostPage(vm, k, a)
    ensures var off := ImageOf(vm.regions[k], a);
            off % vm.ps == 0 && off + vm.ps <= vm.regions[k].offset + vm.regions[k].size <= vm.g.size
  {
    var r := vm.regions[k];
    ImageAligned(vm, r, a);
    SumAligned(vm.ps, r.offset, r.size);
    PageFits(vm.ps, ImageOf(r, a), r.offset + r.size);
  }

  /** Present pages hold what they owe; missing ones owe what the next fault
      puts there. */
  ghost predicate PageOk(vm: Vm, s: Guest, k: nat, a: nat)
    requires VmOk(vm) && HostPage(vm, k, a)
  {
    ImageFits(vm, k, a);
    a in s.owed && s.owed[a] == if a in s.mem then s.mem[a] else Owed(vm, s.marked, ImageOf(vm.regions[k], a))
  }

  ghost predicate Inv(vm: Vm, s: Guest)
    requires VmOk(vm)
  {
    forall k: nat, a: nat :: HostPage(vm, k, a) ==> PageOk(vm, s, k, a)
  }

  /** A guest just restored: no page present, none given back. */
  ghost predicate Restored(vm: Vm, s: Guest)
    requires VmOk(vm)
  {
    && s.mem == map[] && s.marked == {} && s.waiting == {}
    && forall k: nat, a: nat :: HostPage(vm, k, a) ==>
         a in s.owed && ImageOf(vm.regions[k], a) + vm.ps <= vm.g.size
         && s.owed[a] == View(vm.g, [vm.layer])[ImageOf(vm.regions[k], a)..ImageOf(vm.regions[k], a) + vm.ps]
  }

  /** The pages of [start, end) are gone and owe zeros; they are marked. */
  ghost predicate Released(vm: Vm, s: Guest, start: nat, end: nat, s': Guest) {
    && s'.mem == (map a | a in s.mem && !(start <= a < end) :: s.mem[a])
    && s'.waiting == s.waiting
    && s'.owed == (map a | a in s.owed :: if start <= a < end then Zeros(vm.ps) else s.owed[a])
    && (forall p: nat :: p in s'.marked <==>
          p in s.marked || (p < PageCount(vm) && InRange(vm.regions, start, end, vm.ps, p)))
  }

  ghost predicate StepTo(vm: Vm, s: Guest, step: Step, s': Guest)
    requires VmOk(vm)
  {
    match step
    // The page may be there already, brought by another fault.
    case Wait(a) => s' == s.(waiting := s.waiting + {a})
    case Fault(k, page) =>
      page % vm.ps == 0 && s'.owed == s.owed
      && FaultServed(vm, k, page, s.marked, s.mem, s.waiting, s'.marked, s'.mem, s'.waiting)
    case FailedFault(k, page) =>
      page % vm.ps == 0 && s'.owed == s.owed
      && FaultFilled(vm, k, page, s.marked, s.mem, s.waiting, s'.marked, s'.mem, s'.waiting)
    case Write(a, bytes) =>
      a in s.mem && s' == s.(mem := s.mem[a := bytes], owed := s.owed[a := bytes])
    case Release(start, end) =>
      && start % vm.ps == 0 && end % vm.ps == 0
      && Released(vm, s, start, end, s')
  }

  // ---- faults --------------------------------------------------------------------------

  /** Pages of the image that two regions would share are of one region. */
  lemma SameRegion(vm: Vm, i: nat, j: nat, off: nat)
    requires VmOk(vm) && i < |vm.regions| && j < |vm.regions|
    requires vm.regions[i].offset <= off < vm.regions[i].offset + vm.regions[i].size
    requires vm.regions[j].offset <= off < vm.regions[j].offset + vm.regions[j].size
    ensures i == j
  {
  }

  lemma SameHost(vm: Vm, i: nat, j: nat, a: nat)
    requires VmOk(vm) && i < |vm.regions| && j < |vm.regions|
    requires Contains(vm.regions[i], a) && Contains(vm.regions[j], a)
    ensures i == j
  {
  }

  lemma FaultKeepsPage(vm: Vm, s: Guest, k: nat, page: nat, s': Guest, j: nat, a: nat)
    requires VmOk(vm) && Inv(vm, s) && page % vm.ps == 0 && s'.owed == s.owed
    requires FaultFilled(vm, k, page, s.marked, s.mem, s.waiting, s'.marked, s'.mem, s'.waiting)
    requires HostPage(vm, j, a)
    ensures PageOk(vm, s', j, a)
  {
    assert PageOk(vm, s, j, a);
    var r := vm.regions[k];
    var at := ImageOf(r, page);
    ImageAligned(vm, r, page);
    RangeAligned(vm, r, at);
    var lo, hi := RangeLo(vm, r, at), RangeHi(vm, r, at);
    ImageFits(vm, j, a);
    var off := ImageOf(vm.regions[j], a);
    NumberInRange(vm.ps, lo, hi, off);
    if a !in s.mem {
      if a in s'.mem {
        if r.base <= a && InPages(vm.ps, HostOf(r, lo), HostOf(r, hi), a) {
          assert ImageOf(r, a) < r.offset + r.size;
          SameHost(vm, k, j, a);
        }
      } else if lo <= off < hi {
        SameRegion(vm, k, j, off);
      }
    }
  }

  // ---- releases -------------------------------------------------------------------------------

  lemma AlignedLe(ps: Pos, a: nat, b: nat)
    requires a % ps == 0 && b % ps == 0
    ensures a / ps <= b / ps <==> a <= b
    ensures (b / ps) * ps == b
  {
    assert a == (a / ps) * ps && b == (b / ps) * ps;
    MulLt(b / ps, a / ps, ps);
  }

  lemma RegionMarks(vm: Vm, start: nat, end: nat, j: nat, off: nat)
    requires VmOk(vm) && j < |vm.regions| && start % vm.ps == 0 && end % vm.ps == 0 && off % vm.ps == 0
    ensures var r := vm.regions[j];
            InRegionRange(r, start, end, vm.ps, off / vm.ps) <==>
            r.offset <= off < r.offset + r.size && start <= HostOf(r, off) < end
  {
    var r := vm.regions[j];
    assert RegionOk(vm, r);
    var lo := if start > r.base then start else r.base;
    if lo < r.base + r.size {
      ImageAligned(vm, r, lo);
      AlignedLe(vm.ps, ImageOf(r, lo), off);
    }
  }

  lemma OnlyItsRegion(vm: Vm, start: nat, end: nat, k: nat, off: nat)
    requires VmOk(vm) && k < |vm.regions| && start % vm.ps == 0 && end % vm.ps == 0 && off % vm.ps == 0
    requires vm.regions[k].offset <= off < vm.regions[k].offset + vm.regions[k].size
    ensures InRange(vm.regions, start, end, vm.ps, off / vm.ps) <==>
            InRegionRange(vm.regions[k], start, end, vm.ps, off / vm.ps)
  {
    forall j | 0 <= j < |vm.regions| && InRegionRange(vm.regions[j], start, end, vm.ps, off / vm.ps) ensures j == k {
      RegionMarks(vm, start, end, j, off);
      SameRegion(vm, j, k, off);
    }
  }

  /** The marks of a release are of exactly the pages released. */
  lemma MarksOfRange(vm: Vm, start: nat, end: nat, k: nat, a: nat)
    requires VmOk(vm) && HostPage(vm, k, a) && start % vm.ps == 0 && end % vm.ps == 0
    ensures InRange(vm.regions, start, end, vm.ps, ImageOf(vm.regions[k], a) / vm.ps) <==> start <= a < end
    ensures ImageOf(vm.regions[k], a) / vm.ps < PageCount(vm)
  {
    var off := ImageOf(vm.regions[k], a);
    ImageFits(vm, k, a);
    AlignedLe(vm.ps, off, off);
    CeilIndex(off / vm.ps, vm.g.size, vm.ps);
    RegionMarks(vm, start, end, k, off);
    OnlyItsRegion(vm, start, end, k, off);
  }

  lemma ReleaseKeepsPage(vm: Vm, s: Guest, start: nat, end: nat, s': Guest, k: nat, a: nat)
    requires VmOk(vm) && HostPage(vm, k, a) && PageOk(vm, s, k, a)
    requires start % vm.ps == 0 && end % vm.ps == 0 && Released(vm, s, start, end, s')
    ensures PageOk(vm, s', k, a)
  {
    ImageFits(vm, k, a);
    MarksOfRange(vm, start, end, k, a);
    var p := ImageOf(vm.regions[k], a) / vm.ps;
    assert p in s'.marked <==> p in s.marked || start <= a < end;
  }

  /** Every step leaves each present page with what the guest is owed. */
  lemma StepKeeps(vm: Vm, s: Guest, step: Step, s': Guest)
    requires VmOk(vm) && Inv(vm, s) && StepTo(vm, s, step, s')
    ensures Inv(vm, s')
  {
    forall k: nat, a: nat | HostPage(vm, k, a) ensures PageOk(vm, s', k, a) {
      assert PageOk(vm, s, k, a);
      match step
      case Wait(_) =>
      case Fault(i, page) => FaultKeepsPage(vm, s, i, page, s', k, a);
      case FailedFault(i, page) => FaultKeepsPage(vm, s, i, page, s', k, a);
      case Write(_, _) =>
      case Release(start, end) =>
        ReleaseKeepsPage(vm, s, start, end, s', k, a);
    }
  }

  ghost predicate StepAt(vm: Vm, ss: seq<Guest>, steps: seq<Step>, i: nat)
    requires VmOk(vm) && |ss| == |steps| + 1 && i < |steps|
  {
    StepTo(vm, ss[i], steps[i], ss[i + 1])
  }

  ghost predicate IsRun(vm: Vm, ss: seq<Guest>, steps: seq<Step>)
    requires VmOk(vm)
  {
    |ss| == |steps| + 1 && forall i: nat :: i < |steps| ==> StepAt(vm, ss, steps, i)
  }

  lemma RestoredIsOk(vm: Vm, s: Guest)
    requires VmOk(vm) && Restored(vm, s)
    ensures Inv(vm, s)
  {
    forall k: nat, a: nat | HostPage(vm, k, a) ensures PageOk(vm, s, k, a) {
      ImageFits(vm, k, a);
    }
  }

  lemma RunInv(vm: Vm, ss: seq<Guest>, steps: seq<Step>, n: nat)
    requires VmOk(vm) && IsRun(vm, ss, steps) && Restored(vm, ss[0]) && n < |ss|
    ensures Inv(vm, ss[n])
  {
    RestoredIsOk(vm, ss[0]);
    for i := 0 to n
      invariant Inv(vm, ss[i])
    {
      assert StepAt(vm, ss, steps, i);
      StepKeeps(vm, ss[i], steps[i], ss[i + 1]);
    }
  }

  /** Over every run of faults, writes and releases, a present page holds its
      last write, else zeros if it was ever given back, else the snapshot. */
  lemma RunKeeps(vm: Vm, ss: seq<Guest>, steps: seq<Step>, n: nat, k: nat, a: nat)
    requires VmOk(vm) && IsRun(vm, ss, steps) && Restored(vm, ss[0]) && n < |ss|
    requires HostPage(vm, k, a) && a in ss[n].mem
    ensures a in ss[n].owed && ss[n].mem[a] == ss[n].owed[a]
  {
    RunInv(vm, ss, steps, n);
    assert PageOk(vm, ss[n], k, a);
  }

  /** A fault answered leaves the page it asked for present, and nobody waiting for
      it. */
  lemma FaultIsAnswered(vm: Vm, s: Guest, k: nat, page: nat, s': Guest)
    requires VmOk(vm) && StepTo(vm, s, Fault(k, page), s')
    ensures page in s'.mem && page !in s'.waiting
  {
    var r := vm.regions[k];
    var off := ImageOf(r, page);
    assert InPages(vm.ps, HostOf(r, RangeLo(vm, r, off)), HostOf(r, RangeHi(vm, r, off)), page);
  }

  lemma SameChunkIff(c: Pos, x: nat, y: nat)
    ensures x / c == y / c <==> y - y % c <= x < y - y % c + c
  {
    var q := y / c;
    assert y - y % c == q * c;
    if q * c <= x < q * c + c { ModOf(q, x - q * c, c); }
    if x / c == q { assert x == q * c + x % c; }
  }

  lemma RangeIsChunk(vm: Vm, r: Region, off: nat, x: nat)
    requires r.offset <= x < r.offset + r.size
    ensures RangeLo(vm, r, off) <= x < RangeHi(vm, r, off) <==> x / vm.g.chunkSize == off / vm.g.chunkSize
  {
    SameChunkIff(vm.g.chunkSize, x, off);
  }

  /** An answer is the whole of the page's chunk, as far as it is in the region: all
      its pages are there and nobody waits for one; if the chunk has data none is
      marked any more. Nothing else changes. */
  lemma AnswerIsChunk(vm: Vm, s: Guest, k: nat, page: nat, s': Guest, j: nat, a: nat)
    requires VmOk(vm) && StepTo(vm, s, Fault(k, page), s') && HostPage(vm, j, a)
    ensures var off, at := ImageOf(vm.regions[j], a), ImageOf(vm.regions[k], page);
            if j == k && off / vm.g.chunkSize == at / vm.g.chunkSize then
              && a in s'.mem && a !in s'.waiting
              && (off / vm.ps in s'.marked <==> off / vm.ps in s.marked && !DataChunk(vm, at))
            else
              && (a in s'.mem <==> a in s.mem) && (a in s'.waiting <==> a in s.waiting)
              && (off / vm.ps in s'.marked <==> off / vm.ps in s.marked)
  {
    var r, off, at := vm.regions[k], ImageOf(vm.regions[j], a), ImageOf(vm.regions[k], page);
    ImageAligned(vm, r, page);
    RangeAligned(vm, r, at);
    ImageFits(vm, j, a);
    var lo, hi := RangeLo(vm, r, at), RangeHi(vm, r, at);
    NumberInRange(vm.ps, lo, hi, off);
    if lo <= off < hi { SameRegion(vm, k, j, off); }
    if InPages(vm.ps, HostOf(r, lo), HostOf(r, hi), a) { SameHost(vm, k, j, a); }
    if j == k { RangeIsChunk(vm, r, at, off); }
  }

  lemma StepWakes(vm: Vm, s: Guest, step: Step, s': Guest, a: nat)
    requires VmOk(vm) && StepTo(vm, s, step, s') && a in s.waiting && a !in s'.waiting
    ensures a in s'.mem
  {
  }

  lemma RunWakes(vm: Vm, ss: seq<Guest>, steps: seq<Step>, n: nat, a: nat)
    requires VmOk(vm) && IsRun(vm, ss, steps) && n < |steps| && a in ss[n].waiting && a !in ss[n + 1].waiting
    ensures a in ss[n + 1].mem
  {
    assert StepAt(vm, ss, steps, n);
    StepWakes(vm, ss[n], steps[n], ss[n + 1], a);
  }

  /** Over every run, a thread that waits goes on only once its page is there, and
      it finds there what the guest is owed. */
  lemma WokenFindsPage(vm: Vm, ss: seq<Guest>, steps: seq<Step>, n: nat, k: nat, a: nat)
    requires VmOk(vm) && IsRun(vm, ss, steps) && Restored(vm, ss[0]) && n < |steps|
    requires HostPage(vm, k, a) && a in ss[n].waiting && a !in ss[n + 1].waiting
    ensures a in ss[n + 1].mem && a in ss[n + 1].owed && ss[n + 1].mem[a] == ss[n + 1].owed[a]
  {
    RunWakes(vm, ss, steps, n, a);
    RunKeeps(vm, ss, steps, n + 1, k, a);
  }
}
