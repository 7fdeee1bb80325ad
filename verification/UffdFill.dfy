/** Filling missing pages of guest memory, against a kernel that may fill a part
    of what it is asked for, refuse a page that is there, or ask to come again. */
module UffdFill {
  import opened Wrappers
  import opened Arithmetic
  import opened Layers

  datatype FaultErr = Gone | Fatal
  datatype Errno = EEXIST | EAGAIN | ESRCH | EOTHER

  const EAGAIN_SPINS: nat := 64
  const EAGAIN_STEP: nat := 200
  const EAGAIN_BUDGET: nat := 5000000

  /** A page, by its address, of the range [start, end). */
  predicate InPages(ps: Pos, start: nat, end: nat, a: nat) {
    start <= a < end && a % ps == 0
  }

  /** What a fill puts into the page at `a`: the source's bytes, or zeros. */
  ghost function SourcePage(ps: Pos, src: Option<seq<Byte>>, dst: nat, a: nat): seq<Byte> {
    if src.Some? && dst <= a && a - dst + ps <= |src.value| then src.value[a - dst..a - dst + ps] else Zeros(ps)
  }

  /** `after` keeps the pages of `before`, and has in addition pages of [start,
      end) only, as the source has them. */
  ghost predicate Added(ps: Pos, src: Option<seq<Byte>>, dst: nat, start: nat, end: nat,
                        before: map<nat, seq<Byte>>, after: map<nat, seq<Byte>>)
  {
    && (forall a :: a in before ==> a in after && after[a] == before[a])
    && (forall a :: a in after && a !in before ==>
          InPages(ps, start, end, a) && after[a] == SourcePage(ps, src, dst, a))
  }

  ghost predicate AllIn(ps: Pos, start: nat, end: nat, pages: set<nat>) {
    forall a: nat :: InPages(ps, start, end, a) ==> a in pages
  }

  /** No page of the range is in the set. */
  ghost predicate NoneIn(ps: Pos, start: nat, end: nat, pages: set<nat>) {
    forall a: nat :: InPages(ps, start, end, a) ==> a !in pages
  }

  /** Of those who waited, only such as wait for a page of the range that is
      there now were woken. */
  ghost predicate WokenRight(ps: Pos, start: nat, end: nat, w0: set<nat>, w: set<nat>, pages: set<nat>) {
    w <= w0 && forall a :: a in w0 && a !in w ==> InPages(ps, start, end, a) && a in pages
  }

  lemma AddedTwice(ps: Pos, src: Option<seq<Byte>>, dst: nat, start: nat, mid: nat, end: nat,
                   a: map<nat, seq<Byte>>, b: map<nat, seq<Byte>>, c: map<nat, seq<Byte>>)
    requires start <= mid <= end
    requires Added(ps, src, dst, start, mid, a, b) && Added(ps, src, dst, mid, end, b, c)
    ensures Added(ps, src, dst, start, end, a, c)
  {
    forall x | x in c && x !in a ensures InPages(ps, start, end, x) && c[x] == SourcePage(ps, src, dst, x) {
      if x in b { assert c[x] == b[x]; }
    }
  }

  /** A page boundary inside an aligned range leaves a page before its end. */
  lemma PageFits(ps: Pos, pos: nat, end: nat)
    requires pos % ps == 0 && end % ps == 0 && pos < end
    ensures pos + ps <= end && (pos + ps) % ps == 0
  {
    assert pos == (pos / ps) * ps && end == (end / ps) * ps;
    MulLt(pos / ps, end / ps, ps);
    MulStep(pos / ps, ps);
    MulMod(pos / ps + 1, ps);
  }

  lemma SumAligned(ps: Pos, a: nat, b: nat)
    requires a % ps == 0 && b % ps == 0
    ensures (a + b) % ps == 0
  {
    var i, j := a / ps, b / ps;
    DivExact(a, ps);
    DivExact(b, ps);
    MulAdd(i, j, ps);
    MulMod(i + j, ps);
  }

  /** One page at a time: nothing lies between two neighbours. */
  lemma OnePage(ps: Pos, pos: nat, a: nat)
    requires pos % ps == 0
    ensures InPages(ps, pos, pos + ps, a) <==> a == pos
  {
    if a % ps == 0 && pos <= a < pos + ps {
      assert a == (a / ps) * ps && pos == (pos / ps) * ps;
      MulLt(pos / ps, a / ps, ps);
      MulLt(a / ps, pos / ps, ps);
    }
  }

  lemma AllInJoin(ps: Pos, start: nat, mid: nat, end: nat, pages: set<nat>)
    requires AllIn(ps, start, mid, pages) && AllIn(ps, mid, end, pages)
    ensures AllIn(ps, start, end, pages)
  {
    forall a: nat | InPages(ps, start, end, a) ensures a in pages {
      assert InPages(ps, start, mid, a) || InPages(ps, mid, end, a);
    }
  }

  lemma AllInMore(ps: Pos, start: nat, end: nat, pages: set<nat>, more: set<nat>)
    requires AllIn(ps, start, end, pages) && pages <= more
    ensures AllIn(ps, start, end, more)
  {
  }

  lemma AllInOne(ps: Pos, pos: nat, pages: set<nat>)
    requires pos % ps == 0 && pos in pages
    ensures AllIn(ps, pos, pos + ps, pages)
  {
    forall a: nat | InPages(ps, pos, pos + ps, a) ensures a in pages { OnePage(ps, pos, a); }
  }

  lemma NoneInJoin(ps: Pos, start: nat, mid: nat, end: nat, pages: set<nat>)
    requires NoneIn(ps, start, mid, pages) && NoneIn(ps, mid, end, pages)
    ensures NoneIn(ps, start, end, pages)
  {
    forall a: nat | InPages(ps, start, end, a) ensures a !in pages {
      assert InPages(ps, start, mid, a) || InPages(ps, mid, end, a);
    }
  }

  lemma NoneInOne(ps: Pos, pos: nat, pages: set<nat>)
    requires pos % ps == 0 && pos !in pages
    ensures NoneIn(ps, pos, pos + ps, pages)
  {
    forall a: nat | InPages(ps, pos, pos + ps, a) ensures a !in pages { OnePage(ps, pos, a); }
  }

  lemma WokenTwice(ps: Pos, start: nat, mid: nat, end: nat, w0: set<nat>, w1: set<nat>, w2: set<nat>, p1: set<nat>,
                   p2: set<nat>)
    requires start <= mid <= end && p1 <= p2
    requires WokenRight(ps, start, mid, w0, w1, p1) && WokenRight(ps, mid, end, w1, w2, p2)
    ensures WokenRight(ps, start, end, w0, w2, p2)
  {
    forall a | a in w0 && a !in w2 ensures InPages(ps, start, end, a) && a in p2 {
      if a !in w1 { assert InPages(ps, start, mid, a); } else { assert InPages(ps, mid, end, a); }
    }
  }

  lemma WokenWithin(ps: Pos, start: nat, end: nat, more: nat, w0: set<nat>, w: set<nat>, pages: set<nat>)
    requires end <= more && WokenRight(ps, start, end, w0, w, pages)
    ensures WokenRight(ps, start, more, w0, w, pages)
  {
  }

  lemma AddedOne(ps: Pos, src: Option<seq<Byte>>, dst: nat, pos: nat, before: map<nat, seq<Byte>>)
    requires pos % ps == 0 && pos !in before
    ensures Added(ps, src, dst, pos, pos + ps, before, before[pos := SourcePage(ps, src, dst, pos)])
  {
    OnePage(ps, pos, pos);
  }

  /** A fill of [start, end) from `p0` and `w0`: its pages are present, those it
      added are the source's, nobody was woken too early, and unless it stepped
      over some nobody waits for them. */
  ghost predicate Progress(ps: Pos, src: Option<seq<Byte>>, dst: nat, start: nat, end: nat, p0: map<nat, seq<Byte>>,
                           p: map<nat, seq<Byte>>, w0: set<nat>, w: set<nat>, stepped: bool) {
    && Added(ps, src, dst, start, end, p0, p) && AllIn(ps, start, end, p.Keys)
    && WokenRight(ps, start, end, w0, w, p.Keys) && (!stepped ==> NoneIn(ps, start, end, w))
  }

  lemma ProgressBegins(ps: Pos, src: Option<seq<Byte>>, dst: nat, start: nat, p: map<nat, seq<Byte>>, w: set<nat>)
    ensures Progress(ps, src, dst, start, start, p, p, w, w, false)
  {
  }

  lemma ProgressJoins(ps: Pos, src: Option<seq<Byte>>, dst: nat, start: nat, mid: nat, end: nat,
                      p0: map<nat, seq<Byte>>, p1: map<nat, seq<Byte>>, p2: map<nat, seq<Byte>>, w0: set<nat>,
                      w1: set<nat>, w2: set<nat>, stepped: bool)
    requires start <= mid <= end
    requires Progress(ps, src, dst, start, mid, p0, p1, w0, w1, stepped)
    requires Progress(ps, src, dst, mid, end, p1, p2, w1, w2, false)
    ensures Progress(ps, src, dst, start, end, p0, p2, w0, w2, stepped)
  {
    AddedTwice(ps, src, dst, start, mid, end, p0, p1, p2);
    AllInMore(ps, start, mid, p1.Keys, p2.Keys);
    AllInJoin(ps, start, mid, end, p2.Keys);
    WokenTwice(ps, start, mid, end, w0, w1, w2, p1.Keys, p2.Keys);
    if !stepped { NoneInJoin(ps, start, mid, end, w2); }
  }

  lemma ProgressWithin(ps: Pos, src: Option<seq<Byte>>, dst: nat, start: nat, end: nat, more: nat,
                       p0: map<nat, seq<Byte>>, p: map<nat, seq<Byte>>, w0: set<nat>, w: set<nat>, stepped: bool)
    requires end <= more && Progress(ps, src, dst, start, end, p0, p, w0, w, stepped)
    ensures Added(ps, src, dst, start, more, p0, p) && WokenRight(ps, start, more, w0, w, p.Keys)
  {
    WokenWithin(ps, start, end, more, w0, w, p.Keys);
    assert forall a :: InPages(ps, start, end, a) ==> InPages(ps, start, more, a);
  }

  lemma ProgressMore(ps: Pos, src: Option<seq<Byte>>, dst: nat, mid: nat, end: nat, more: nat,
                     p0: map<nat, seq<Byte>>, p1: map<nat, seq<Byte>>, p2: map<nat, seq<Byte>>, w0: set<nat>,
                     w1: set<nat>, w2: set<nat>, stepped: bool)
    requires dst <= mid <= end <= more
    requires Progress(ps, src, dst, dst, mid, p0, p1, w0, w1, stepped)
    requires Progress(ps, src, dst, mid, end, p1, p2, w1, w2, false)
    ensures Progress(ps, src, dst, dst, end, p0, p2, w0, w2, stepped)
    ensures Added(ps, src, dst, dst, more, p0, p2) && WokenRight(ps, dst, more, w0, w2, p2.Keys)
  {
    ProgressJoins(ps, src, dst, dst, mid, end, p0, p1, p2, w0, w1, w2, stepped);
    ProgressWithin(ps, src, dst, dst, end, more, p0, p2, w0, w2, stepped);
  }

  /** One page that is missing. */
  lemma ProgressOne(ps: Pos, src: Option<seq<Byte>>, dst: nat, a: nat, p: map<nat, seq<Byte>>, w: set<nat>)
    requires a % ps == 0 && a !in p
    ensures Progress(ps, src, dst, a, a + ps, p, p[a := SourcePage(ps, src, dst, a)], w, w - {a}, false)
  {
    AddedOne(ps, src, dst, a, p);
    AllInOne(ps, a, p[a := SourcePage(ps, src, dst, a)].Keys);
    NoneInOne(ps, a, w - {a});
    OnePage(ps, a, a);
  }

  /** One page that is there is stepped over. */
  lemma ProgressSteps(ps: Pos, src: Option<seq<Byte>>, dst: nat, start: nat, a: nat, p0: map<nat, seq<Byte>>,
                      p: map<nat, seq<Byte>>, w0: set<nat>, w: set<nat>, stepped: bool)
    requires start <= a && a % ps == 0 && a in p && Progress(ps, src, dst, start, a, p0, p, w0, w, stepped)
    ensures Progress(ps, src, dst, start, a + ps, p0, p, w0, w, true)
  {
    AllInOne(ps, a, p.Keys);
    AllInJoin(ps, start, a, a + ps, p.Keys);
    WokenWithin(ps, start, a, a + ps, w0, w, p.Keys);
  }

  /** A guest's memory: the pages that are present, and those that threads wait
      for. `refusals` are the errors its kernel may give instead of filling, and with
      `deaf` it may refuse to wake. */
  class Memory {
    const ps: Pos
    const refusals: set<Errno>
    const deaf: bool
    var pages: map<nat, seq<Byte>>
    var waiting: set<nat>

    constructor (ps: Pos, refusals: set<Errno>, deaf: bool)
      ensures this.ps == ps && this.refusals == refusals && this.deaf == deaf && pages == map[] && waiting == {}
    {
      this.ps, this.refusals, this.deaf, pages, waiting := ps, refusals, deaf, map[], {};
    }

    /** Its kernel refuses nothing but pages that are there. */
    predicate Reliable() {
      refusals <= {EEXIST} && !deaf
    }

    function Page(src: Option<seq<Byte>>, dst: nat, a: nat): (r: seq<Byte>)
      ensures r == SourcePage(ps, src, dst, a)
    {
      if src.Some? && dst <= a && a - dst + ps <= |src.value| then src.value[a - dst..a - dst + ps] else Zeros(ps)
    }

    method FillPage(src: Option<seq<Byte>>, dst: nat, a: nat, ghost start: nat, ghost p0: map<nat, seq<Byte>>,
                    ghost w0: set<nat>)
      requires start <= a && a % ps == 0 && a !in pages
      requires Progress(ps, src, dst, start, a, p0, pages, w0, waiting, false)
      modifies this
      ensures Progress(ps, src, dst, start, a + ps, p0, pages, w0, waiting, false)
    {
      ghost var p, w := pages, waiting;
      pages := pages[a := Page(src, dst, a)];
      waiting := waiting - {a};
      ProgressOne(ps, src, dst, a, p, w);
      ProgressJoins(ps, src, dst, start, a, a + ps, p0, p, pages, w0, w, waiting, false);
    }

    /** The kernel's answer to a fill of [dst+done, dst+len): it fills some of
        the missing pages from the front, and wakes who waits for those. */
    method FillIoctl(src: Option<seq<Byte>>, dst: nat, done: nat, len: nat)
      returns (moved: nat, errno: Errno)
      requires dst % ps == 0 && done % ps == 0 && len % ps == 0 && done < len
      modifies this
      ensures moved % ps == 0 && done + moved <= len
      ensures Progress(ps, src, dst, dst + done, dst + done + moved, old(pages), pages, old(waiting), waiting, false)
      ensures moved == 0 ==> errno in refusals || errno == EEXIST
      ensures moved == 0 && errno == EEXIST ==> dst + done in old(pages)
    {
      moved := 0;
      errno := EEXIST;
      ProgressBegins(ps, src, dst, dst + done, pages, waiting);
      var refused: bool := *;
      if refused && refusals - {EEXIST} != {} {
        errno :| errno in refusals - {EEXIST};
        return;
      }
      SumAligned(ps, dst, done);
      ghost var start := dst + done;
      var more := true;
      while more && done + moved < len && dst + done + moved !in pages
        invariant moved % ps == 0 && done + moved <= len
        invariant Progress(ps, src, dst, start, start + moved, old(pages), pages, old(waiting), waiting, false)
        invariant moved == 0 ==> pages == old(pages) && more
        decreases len - moved
      {
        SumAligned(ps, start, moved);
        SumAligned(ps, done, moved);
        PageFits(ps, done + moved, len);
        FillPage(src, dst, dst + done + moved, start, old(pages), old(waiting));
        SumAligned(ps, moved, ps);
        moved := moved + ps;
        more := *;
      }
    }

    /** The next fill of a range, of which the first `done` bytes are dealt with. */
    method FillMore(src: Option<seq<Byte>>, dst: nat, done: nat, len: nat, ghost p0: map<nat, seq<Byte>>,
                    ghost w0: set<nat>, ghost stepped: bool) returns (moved: nat, errno: Errno)
      requires dst % ps == 0 && done % ps == 0 && len % ps == 0 && done < len
      requires Progress(ps, src, dst, dst, dst + done, p0, pages, w0, waiting, stepped)
      modifies this
      ensures (done + moved) % ps == 0 && done + moved <= len
      ensures Progress(ps, src, dst, dst, dst + done + moved, p0, pages, w0, waiting, stepped)
      ensures Added(ps, src, dst, dst, dst + len, p0, pages)
      ensures WokenRight(ps, dst, dst + len, w0, waiting, pages.Keys)
      ensures moved == 0 ==> errno in refusals || errno == EEXIST
      ensures moved == 0 && errno == EEXIST ==> dst + done in pages
    {
      ghost var p, w := pages, waiting;
      moved, errno := FillIoctl(src, dst, done, len);
      ProgressMore(ps, src, dst, dst + done, dst + done + moved, dst + len, p0, p, pages, w0, w, waiting, stepped);
      SumAligned(ps, done, moved);
    }

    /** Wakes who waits for a page of the range. */
    method Wake(start: nat, len: nat) returns (ok: bool)
      requires AllIn(ps, start, start + len, pages.Keys)
      modifies this`waiting
      ensures WokenRight(ps, start, start + len, old(waiting), waiting, pages.Keys)
      ensures ok ==> NoneIn(ps, start, start + len, waiting)
      ensures !deaf ==> ok
    {
      ok := *;
      ok := ok || !deaf;
      if ok {
        waiting := set a | a in waiting && !InPages(ps, start, start + len, a);
      }
    }

    /** Waits, unless the budget is spent: any time at first, a step at least
        later on. */
    method Backoff(attempt: nat, elapsed: nat) returns (waited: bool, took: nat)
      ensures waited <==> elapsed < EAGAIN_BUDGET
      ensures waited && attempt >= EAGAIN_SPINS ==> took >= EAGAIN_STEP
    {
      if elapsed >= EAGAIN_BUDGET { return false, 0; }
      took :| took >= 0;
      if attempt >= EAGAIN_SPINS { took := took + EAGAIN_STEP; }
      waited := true;
    }

    /** Fills [dst, dst+len) with the source's bytes or zeros, stepping over
        the pages that are there. On success every page of the range is present
        and nobody waits for one. Always, the pages that were present are as they
        were, added ones hold the source, and who was woken finds the page. It
        ends: each refusal to come again costs time of a budget. It fails only if the
        kernel does, and on that refusal only when the budget is spent. */
    method Fill(src: Option<seq<Byte>>, dst: nat, len: nat) returns (r: Option<FaultErr>, ghost spent: nat)
      requires dst % ps == 0 && len % ps == 0
      modifies this
      ensures Added(ps, src, dst, dst, dst + len, old(pages), pages)
      ensures WokenRight(ps, dst, dst + len, old(waiting), waiting, pages.Keys)
      ensures r.None? ==> AllIn(ps, dst, dst + len, pages.Keys)
      ensures r.None? ==> NoneIn(ps, dst, dst + len, waiting)
      ensures Reliable() ==> r.None?
      ensures r == Some(Gone) ==> ESRCH in refusals
      ensures r == Some(Fatal) ==> deaf || EOTHER in refusals || (EAGAIN in refusals && spent >= EAGAIN_BUDGET)
    {
      spent := 0;
      var done := 0;
      var attempt: nat, elapsed: nat := 0, 0;
      var stepped := false;
      ProgressBegins(ps, src, dst, dst, pages, waiting);
      while done < len
        invariant done <= len && done % ps == 0
        invariant Progress(ps, src, dst, dst, dst + done, old(pages), pages, old(waiting), waiting, stepped)
        invariant spent == elapsed
        decreases len - done,
                  if attempt < EAGAIN_SPINS then EAGAIN_SPINS - attempt else 0,
                  if elapsed < EAGAIN_BUDGET then EAGAIN_BUDGET - elapsed else 0
      {
        var moved, errno := FillMore(src, dst, done, len, old(pages), old(waiting), stepped);
        if done + moved == len {
          if stepped {
            var ok := Wake(dst, len);
            return if ok then None else Some(Fatal), elapsed;
          }
          return None, elapsed;
        }
        if moved > 0 {
          done := done + moved;
        } else if errno == EEXIST {
          PageFits(ps, done, len);
          SumAligned(ps, dst, done);
          ProgressSteps(ps, src, dst, dst, dst + done, old(pages), pages, old(waiting), waiting, stepped);
          stepped := true;
          done := done + ps;
        } else if errno == EAGAIN {
          attempt := attempt + 1;
          var waited, took := Backoff(attempt, elapsed);
          if !waited { return Some(Fatal), elapsed; }
          elapsed := elapsed + took;
          spent := elapsed;
        } else if errno == ESRCH {
          return Some(Gone), elapsed;
        } else {
          return Some(Fatal), elapsed;
        }
      }
      var ok := Wake(dst, len);
      return if ok then None else Some(Fatal), elapsed;
    }
  }
}
