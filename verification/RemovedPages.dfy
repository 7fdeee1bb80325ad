/** The pages a guest gave back: one bit for each page of its memory image, in
    64-bit words. */
module RemovedPages {
  import opened Wrappers
  import opened Arithmetic

  /** A region of guest memory: `size` bytes at `base` in the host's address
      space, which are the image's bytes from `offset` on. */
  datatype Region = Region(base: nat, size: nat, offset: nat)

  // ---- words -----------------------------------------------------------------------

  /** A 64-bit word, bit by bit. */
  type Word = w: seq<bool> | |w| == 64 witness seq(64, i => false)

  /** 1 << k. */
  function Mask(k: nat): (m: Word)
    requires k < 64
    ensures forall i :: 0 <= i < 64 ==> (m[i] <==> i == k)
  {
    seq(64, i => i == k)
  }

  function Or(a: Word, b: Word): (r: Word)
    ensures forall i :: 0 <= i < 64 ==> (r[i] <==> a[i] || b[i])
  {
    seq(64, i requires 0 <= i < 64 => a[i] || b[i])
  }

  function And(a: Word, b: Word): (r: Word)
    ensures forall i :: 0 <= i < 64 ==> (r[i] <==> a[i] && b[i])
  {
    seq(64, i requires 0 <= i < 64 => a[i] && b[i])
  }

  function Not(a: Word): (r: Word)
    ensures forall i :: 0 <= i < 64 ==> (r[i] <==> !a[i])
  {
    seq(64, i requires 0 <= i < 64 => !a[i])
  }

  const ZERO_WORD: Word := seq(64, i => false)

  lemma MaskTests(w: Word, k: nat)
    requires k < 64
    ensures And(w, Mask(k)) != ZERO_WORD <==> w[k]
    ensures Or(w, Mask(k)) == w[k := true]
    ensures And(w, Not(Mask(k))) == w[k := false]
  {
    assert And(w, Mask(k))[k] == w[k];
    if !w[k] { assert And(w, Mask(k)) == ZERO_WORD; }
  }

  predicate BitAt(words: seq<Word>, p: nat) {
    p / 64 < |words| && words[p / 64][p % 64]
  }

  /** The words stand for `marked`, a set of the image's pages. */
  ghost predicate Represents(words: seq<Word>, pages: nat, marked: set<nat>) {
    && |words| == (pages + 63) / 64
    && (forall p :: p in marked ==> p < pages)
    && (forall p: nat {:trigger BitAt(words, p)} :: p < pages ==> (BitAt(words, p) <==> p in marked))
  }

  lemma SetMarks(words: seq<Word>, pages: nat, marked: set<nat>, p: nat)
    requires Represents(words, pages, marked) && p < pages
    ensures Represents(words[p / 64 := words[p / 64][p % 64 := true]], pages, marked + {p})
    ensures Represents(words[p / 64 := words[p / 64][p % 64 := false]], pages, marked - {p})
    ensures BitAt(words, p) <==> p in marked
  {
    var on, off := words[p / 64 := words[p / 64][p % 64 := true]], words[p / 64 := words[p / 64][p % 64 := false]];
    forall q: nat | q < pages
      ensures (BitAt(on, q) <==> BitAt(words, q) || q == p) && (BitAt(off, q) <==> BitAt(words, q) && q != p)
    {
    }
  }

  // ---- ranges ------------------------------------------------------------------------

  /** Whether image page `p` holds a byte that region `r` has in [start, end). */
  ghost predicate InRegionRange(r: Region, start: nat, end: nat, ps: Pos, p: nat) {
    var lo := if start > r.base then start else r.base;
    var hi := if end < r.base + r.size then end else r.base + r.size;
    lo < hi && (r.offset + (lo - r.base)) / ps <= p && p * ps < r.offset + (hi - r.base)
  }

  ghost predicate InRange(regions: seq<Region>, start: nat, end: nat, ps: Pos, p: nat) {
    exists k :: 0 <= k < |regions| && InRegionRange(regions[k], start, end, ps, p)
  }

  /** A byte of the image that region `r` has in [start, end) of the host. */
  ghost predicate ByteIn(r: Region, start: nat, end: nat, x: nat) {
    r.offset <= x < r.offset + r.size && start <= r.base + (x - r.offset) < end
  }

  /** That is: the page holds such a byte, whatever the alignment. */
  lemma InRangeIsBytes(r: Region, start: nat, end: nat, ps: Pos, p: nat)
    ensures InRegionRange(r, start, end, ps, p) <==> exists x: nat :: ByteIn(r, start, end, x) && x / ps == p
  {
    var lo := if start > r.base then start else r.base;
    var hi := if end < r.base + r.size then end else r.base + r.size;
    if InRegionRange(r, start, end, ps, p) {
      var from := r.offset + (lo - r.base);
      ModOf(p, 0, ps);
      if p * ps >= from {
        assert ByteIn(r, start, end, p * ps);
      } else {
        DivMono(p * ps, from, ps);
        assert ByteIn(r, start, end, from);
      }
    }
    if x: nat :| ByteIn(r, start, end, x) && x / ps == p {
      DivMono(r.offset + (lo - r.base), x, ps);
      DivBounds(x, ps);
    }
  }

  lemma InRangeSnoc(regions: seq<Region>, r: Region, start: nat, end: nat, ps: Pos, p: nat)
    ensures InRange(regions + [r], start, end, ps, p) <==>
            InRange(regions, start, end, ps, p) || InRegionRange(r, start, end, ps, p)
  {
    var all := regions + [r];
    if k :| 0 <= k < |regions| && InRegionRange(regions[k], start, end, ps, p) {
      assert all[k] == regions[k];
    }
    assert all[|regions|] == r;
  }

  /** The pages a scan of `r` visits: up to the first that begins past the range. */
  lemma ScanIsRegion(r: Region, start: nat, end: nat, ps: Pos, q: nat)
    requires var lo := if start > r.base then start else r.base;
             var hi := if end < r.base + r.size then end else r.base + r.size;
             && lo < hi && (r.offset + (lo - r.base)) / ps <= q
             && q * ps >= r.offset + (hi - r.base)
             && (q > (r.offset + (lo - r.base)) / ps ==> (q - 1) * ps < r.offset + (hi - r.base))
    ensures var lo := if start > r.base then start else r.base;
            forall p: nat :: (r.offset + (lo - r.base)) / ps <= p < q <==> InRegionRange(r, start, end, ps, p)
  {
    forall p: nat ensures p < q ==> p * ps <= (q - 1) * ps {
      if p < q { MulLe(p, q - 1, ps); }
    }
    forall p: nat ensures p >= q ==> p * ps >= q * ps {
      if p >= q { MulLe(q, p, ps); }
    }
  }

  /** The next page begins a page size further. */
  lemma NextPage(q: nat, ps: Pos)
    ensures (q * ps) / ps == q && (q * ps) % ps == 0 && (q + 1) * ps == q * ps + ps
  {
    MulMod(q, ps);
    MulStep(q, ps);
  }

  lemma DivMulMono(a: nat, b: nat, n: Pos)
    requires a <= b && a % n == 0 && b % n == 0
    ensures a == (a / n) * n && b == (b / n) * n && a / n <= b / n
  {
    MulLt(b / n, a / n, n);
  }

  /** Page `p` is met on the way from `from` to `until`, a page size at a time. */
  ghost predicate Visits(ps: Pos, from: nat, until: nat, p: nat) {
    from / ps <= p && from + (p - from / ps) * ps < until
  }

  lemma VisitNext(ps: Pos, from: nat, n: nat)
    ensures (from + n * ps) / ps == from / ps + n && (n + 1) * ps == n * ps + ps
  {
    var q, r := from / ps, from % ps;
    MulStep(n, ps);
    assert from + n * ps == (q + n) * ps + r;
    ModOf(q + n, r, ps);
  }

  lemma VisitsAre(ps: Pos, from: nat, until: nat, n: nat, p: nat)
    requires from + n * ps >= until && (n > 0 ==> from + (n - 1) * ps < until)
    ensures Visits(ps, from, until, p) <==> from / ps <= p < from / ps + n
  {
    if p >= from / ps {
      var k := p - from / ps;
      if k < n { MulLe(k, n - 1, ps); } else { MulLe(n, k, ps); }
    }
  }

  /** Between two page boundaries the pages met are all there are. */
  lemma AlignedVisits(ps: Pos, from: nat, until: nat)
    requires from % ps == 0 && until % ps == 0 && from <= until
    ensures forall p: nat :: Visits(ps, from, until, p) <==> from / ps <= p < until / ps
  {
    var n := until / ps - from / ps;
    DivMulMono(from, until, ps);
    assert until == from + n * ps;
    if n > 0 { MulStep(n - 1, ps); }
    forall p: nat ensures Visits(ps, from, until, p) <==> from / ps <= p < until / ps {
      VisitsAre(ps, from, until, n, p);
    }
  }

  class Bitmap {
    const pageSize: Pos
    const pages: nat
    const bits: array<Word>
    /** The pages marked. */
    ghost var marked: set<nat>

    constructor (logicalSize: nat, pageSize: nat)
      ensures Valid() && fresh(bits) && marked == {}
      ensures this.pageSize == (if pageSize > 0 then pageSize else 1)
      ensures pages == (logicalSize + this.pageSize - 1) / this.pageSize
    {
      var ps: Pos := if pageSize > 0 then pageSize else 1;
      this.pageSize := ps;
      this.pages := (logicalSize + ps - 1) / ps;
      this.bits := new Word[((logicalSize + ps - 1) / ps + 63) / 64](i => ZERO_WORD);
      this.marked := {};
    }

    ghost predicate Valid()
      reads this, bits
    {
      Represents(bits[..], pages, marked)
    }

    /** Where the bit of the page at `off` is, if the image has that page. */
    function Slot(off: nat): Option<(nat, Word)> {
      var idx := off / pageSize;
      if idx >= pages then None else Some((idx / 64, Mask(idx % 64)))
    }

    method IsSet(off: nat) returns (r: bool)
      requires Valid()
      ensures r <==> off / pageSize in marked
    {
      var s := Slot(off);
      if s.None? { return false; }
      MaskTests(bits[s.value.0], (off / pageSize) % 64);
      assert BitAt(bits[..], off / pageSize) <==> off / pageSize in marked;
      r := And(bits[s.value.0], s.value.1) != ZERO_WORD;
      assert bits[..][s.value.0] == bits[s.value.0];
    }

    /** Marks the page at `off`; true if it was not marked. */
    method MarkPage(off: nat) returns (added: bool)
      requires Valid()
      modifies this`marked, bits
      ensures Valid()
      ensures forall p: nat :: p in marked <==> p in old(marked) || (p == off / pageSize && p < pages)
      ensures added <==> off / pageSize < pages && off / pageSize !in old(marked)
      ensures |marked| == |old(marked)| + if added then 1 else 0
    {
      added := false;
      var s := Slot(off);
      if s.Some? {
        var w, b := s.value.0, s.value.1;
        ghost var words := bits[..];
        assert words[w] == bits[w];
        MaskTests(words[w], (off / pageSize) % 64);
        SetMarks(words, pages, marked, off / pageSize);
        added := And(bits[w], b) == ZERO_WORD;
        bits[w] := Or(bits[w], b);
        assert bits[..] == words[w := Or(words[w], b)];
        assert !added ==> marked + {off / pageSize} == marked;
        marked := marked + {off / pageSize};
      }
    }

    method ClearPage(off: nat)
      requires Valid()
      modifies this`marked, bits
      ensures Valid()
      ensures marked == old(marked) - {off / pageSize}
    {
      var s := Slot(off);
      if s.Some? {
        var w, b := s.value.0, s.value.1;
        ghost var words := bits[..];
        assert words[w] == bits[w];
        MaskTests(words[w], (off / pageSize) % 64);
        SetMarks(words, pages, marked, off / pageSize);
        bits[w] := And(bits[w], Not(b));
        assert bits[..] == words[w := And(words[w], Not(b))];
        marked := marked - {off / pageSize};
      }
    }

    /** Marks every page of a host range the guest released, and counts the
        ones that were not marked. */
    method Mark(regions: seq<Region>, start: nat, end: nat) returns (n: nat)
      requires Valid()
      modifies this`marked, bits
      ensures Valid()
      ensures forall p: nat :: p in marked <==>
                p in old(marked) || (p < pages && InRange(regions, start, end, pageSize, p))
      ensures n == |marked| - |old(marked)|
    {
      n := 0;
      var k := 0;
      while k < |regions|
        invariant 0 <= k <= |regions| && Valid()
        invariant forall p: nat :: p in marked <==>
                    p in old(marked) || (p < pages && InRange(regions[..k], start, end, pageSize, p))
        invariant n == |marked| - |old(marked)|
      {
        assert regions[..k + 1] == regions[..k] + [regions[k]];
        forall p: nat {
          InRangeSnoc(regions[..k], regions[k], start, end, pageSize, p);
        }
        var m := MarkRegion(regions[k], start, end);
        n := n + m;
        k := k + 1;
      }
      assert regions[..k] == regions;
    }

    method MarkRegion(r: Region, start: nat, end: nat) returns (n: nat)
      requires Valid()
      modifies this`marked, bits
      ensures Valid()
      ensures forall p: nat :: p in marked <==>
                p in old(marked) || (p < pages && InRegionRange(r, start, end, pageSize, p))
      ensures n == |marked| - |old(marked)|
    {
      n := 0;
      var lo := if start > r.base then start else r.base;
      var hi := if end < r.base + r.size then end else r.base + r.size;
      if lo >= hi {
        return;
      }
      ghost var q;
      n, q := MarkFrom(r.offset + (lo - r.base), r.offset + (hi - r.base));
      ScanIsRegion(r, start, end, pageSize, q);
    }

    /** Marks the pages from that of `offLo` up to the first, `q`, that begins
        at `offHi` or later. */
    method MarkFrom(offLo: nat, offHi: nat) returns (n: nat, ghost q: nat)
      requires Valid() && offLo < offHi
      modifies this`marked, bits
      ensures Valid()
      ensures offLo / pageSize <= q && q * pageSize >= offHi
      ensures q > offLo / pageSize ==> (q - 1) * pageSize < offHi
      ensures forall p: nat :: p in marked <==> p in old(marked) || (offLo / pageSize <= p < q && p < pages)
      ensures n == |marked| - |old(marked)|
    {
      n := 0;
      var off: nat := offLo - offLo % pageSize;
      ghost var first := offLo / pageSize;
      q := first;
      while off < offHi
        invariant Valid() && off == q * pageSize && first <= q
        invariant forall p: nat :: p in marked <==> p in old(marked) || (first <= p < q && p < pages)
        invariant n == |marked| - |old(marked)|
        invariant q > first ==> off < offHi + pageSize
        decreases offHi - off
      {
        NextPage(q, pageSize);
        var added := MarkPage(off);
        if added {
          n := n + 1;
        }
        off := off + pageSize;
        q := q + 1;
      }
      if q > first { MulStep(q - 1, pageSize); }
    }

    /** Clears a page every page size from `from` on, below `until`. */
    method Clear(from: nat, until: nat)
      requires Valid()
      modifies this`marked, bits
      ensures Valid()
      ensures forall p: nat :: p in marked <==> p in old(marked) && !Visits(pageSize, from, until, p)
    {
      var off := from;
      ghost var n: nat := 0;
      while off < until
        invariant Valid() && off == from + n * pageSize && (n > 0 ==> from + (n - 1) * pageSize < until)
        invariant forall p: nat :: p in marked <==> p in old(marked) && !(from / pageSize <= p < from / pageSize + n)
        decreases until - off
      {
        VisitNext(pageSize, from, n);
        ClearPage(off);
        off := off + pageSize;
        n := n + 1;
      }
      forall p: nat ensures Visits(pageSize, from, until, p) <==> from / pageSize <= p < from / pageSize + n {
        VisitsAre(pageSize, from, until, n, p);
      }
    }
  }
}
