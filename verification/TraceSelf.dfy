/** The time a span spent itself, and the parts of it spent waiting. */
module TraceSelf {
  import opened Wrappers
  import opened Sorting
  import opened TracePath

  /** A stretch of time, [0, 1). */
  type Stretch = (int, int)

  ghost predicate In(p: Stretch, x: int) {
    p.0 <= x < p.1
  }

  ghost predicate Covers(parts: seq<Stretch>, x: int) {
    exists k :: 0 <= k < |parts| && In(parts[k], x)
  }

  /** The moments of the span at which one of the children runs. */
  ghost predicate Busy(span: Span, children: seq<Span>, x: int) {
    span.start <= x < End(span) && exists k :: 0 <= k < |children| && children[k].start <= x < End(children[k])
  }

  /** A child runs inside the span for a while, or takes no time at all there. */
  ghost predicate HasPart(span: Span, children: seq<Span>) {
    exists k :: 0 <= k < |children| && (Within(children[k], span.start, End(span))).Some?
  }

  // ---- counting moments ------------------------------------------------------------

  ghost function Count(f: int -> bool, lo: int, hi: int): nat
    decreases if hi > lo then hi - lo else 0
  {
    if hi <= lo then 0 else Count(f, lo, hi - 1) + if f(hi - 1) then 1 else 0
  }

  lemma {:induction false} CountSplit(f: int -> bool, lo: int, mid: int, hi: int)
    requires lo <= mid <= hi
    ensures Count(f, lo, hi) == Count(f, lo, mid) + Count(f, mid, hi)
    decreases hi - mid
  {
    if mid < hi { CountSplit(f, lo, mid, hi - 1); }
  }

  lemma {:induction false} CountAll(f: int -> bool, lo: int, hi: int)
    requires lo <= hi && forall x :: lo <= x < hi ==> f(x)
    ensures Count(f, lo, hi) == hi - lo
    decreases hi - lo
  {
    if lo < hi { CountAll(f, lo, hi - 1); }
  }

  lemma {:induction false} CountNone(f: int -> bool, lo: int, hi: int)
    requires forall x :: lo <= x < hi ==> !f(x)
    ensures Count(f, lo, hi) == 0
    decreases if hi > lo then hi - lo else 0
  {
    if lo < hi { CountNone(f, lo, hi - 1); }
  }

  lemma {:induction false} CountSame(f: int -> bool, g: int -> bool, lo: int, hi: int)
    requires forall x :: lo <= x < hi ==> f(x) == g(x)
    ensures Count(f, lo, hi) == Count(g, lo, hi) && Count(f, lo, hi) <= if lo < hi then hi - lo else 0
    decreases if hi > lo then hi - lo else 0
  {
    if lo < hi { CountSame(f, g, lo, hi - 1); }
  }

  /** How long the children run inside the span, time they share counted once. */
  ghost function BusyTime(span: Span, children: seq<Span>): nat {
    Count(x => Busy(span, children, x), span.start, End(span))
  }

  ghost function Total(parts: seq<Stretch>): int {
    if |parts| == 0 then 0 else Total(parts[..|parts| - 1]) + parts[|parts| - 1].1 - parts[|parts| - 1].0
  }

  // ---- merging ------------------------------------------------------------------------------

  /** In order, none empty backwards, with time between any two. */
  ghost predicate Separate(out: seq<Stretch>, lo: int, hi: int) {
    && (forall k :: 0 <= k < |out| ==> lo <= out[k].0 <= out[k].1 <= hi)
    && (forall j, k :: 0 <= j < k < |out| ==> out[j].1 < out[k].0)
  }

  ghost predicate Inside(parts: seq<Stretch>, lo: int, hi: int) {
    forall k :: 0 <= k < |parts| ==> lo <= parts[k].0 <= parts[k].1 <= hi
  }

  /** `out` covers what `parts` cover, merged. */
  ghost predicate Merged(parts: seq<Stretch>, out: seq<Stretch>, lo: int, hi: int) {
    && Separate(out, lo, hi) && (out == [] <==> parts == [])
    && (forall x :: Covers(out, x) <==> Covers(parts, x))
  }

  /** The last stretch begins no later than the last part. */
  ghost predicate Trails(parts: seq<Stretch>, out: seq<Stretch>) {
    |parts| > 0 ==> |out| > 0 && out[|out| - 1].0 <= parts[|parts| - 1].0
  }

  /** One part more, no earlier than those before it. */
  function Extend(out: seq<Stretch>, p: Stretch): seq<Stretch> {
    if |out| > 0 && p.0 <= out[|out| - 1].1
    then out[|out| - 1 := (out[|out| - 1].0, Max(out[|out| - 1].1, p.1))]
    else out + [p]
  }

  lemma CoversLast(parts: seq<Stretch>, x: int)
    requires |parts| > 0
    ensures Covers(parts, x) <==> Covers(parts[..|parts| - 1], x) || In(parts[|parts| - 1], x)
  {
    var init := parts[..|parts| - 1];
    if Covers(parts, x) {
      var k :| 0 <= k < |parts| && In(parts[k], x);
      if k < |init| { assert In(init[k], x); }
    }
    if Covers(init, x) {
      var k :| 0 <= k < |init| && In(init[k], x);
      assert In(parts[k], x);
    }
  }

  lemma ExtendCovers(out: seq<Stretch>, p: Stretch, x: int)
    requires |out| > 0 ==> out[|out| - 1].0 <= p.0 && out[|out| - 1].0 <= out[|out| - 1].1
    ensures Covers(Extend(out, p), x) <==> Covers(out, x) || In(p, x)
  {
    var next := Extend(out, p);
    CoversLast(next, x);
    if |out| > 0 && p.0 <= out[|out| - 1].1 {
      CoversLast(out, x);
      assert next[..|next| - 1] == out[..|out| - 1];
    } else {
      assert next[..|next| - 1] == out;
    }
  }

  lemma ExtendMerges(parts: seq<Stretch>, out: seq<Stretch>, p: Stretch, lo: int, hi: int)
    requires Merged(parts, out, lo, hi) && Trails(parts, out)
    requires lo <= p.0 <= p.1 <= hi && (|parts| > 0 ==> parts[|parts| - 1].0 <= p.0)
    ensures Merged(parts + [p], Extend(out, p), lo, hi) && Trails(parts + [p], Extend(out, p))
  {
    forall x ensures Covers(Extend(out, p), x) <==> Covers(parts + [p], x) {
      CoversLast(parts + [p], x);
      assert (parts + [p])[..|parts + [p]| - 1] == parts;
      ExtendCovers(out, p, x);
    }
  }

  /** The last stretch and the others lie apart. */
  lemma LastApart(out: seq<Stretch>, lo: int, hi: int)
    requires |out| > 0 && Separate(out, lo, hi)
    ensures var p := out[|out| - 1];
            && lo <= p.0 <= p.1 <= hi && Separate(out[..|out| - 1], lo, p.0)
            && (forall x :: lo <= x < p.0 ==> Covers(out, x) == Covers(out[..|out| - 1], x))
            && (forall x :: p.0 <= x < p.1 ==> Covers(out, x)) && (forall x :: p.1 <= x < hi ==> !Covers(out, x))
  {
    var init, p := out[..|out| - 1], out[|out| - 1];
    forall x ensures Covers(out, x) <==> Covers(init, x) || In(p, x) { CoversLast(out, x); }
    forall x | p.0 <= x ensures !Covers(init, x) { }
  }

  /** The last stretch counts for its length. */
  lemma LastCounts(out: seq<Stretch>, f: int -> bool, lo: int, hi: int)
    requires |out| > 0 && Separate(out, lo, hi) && forall x :: lo <= x < hi ==> f(x) == Covers(out, x)
    ensures var p := out[|out| - 1];
            lo <= p.0 <= p.1 <= hi && Count(f, lo, hi) == Count(f, lo, p.0) + (p.1 - p.0)
  {
    var p := out[|out| - 1];
    LastApart(out, lo, hi);
    CountSplit(f, lo, p.0, hi);
    CountSplit(f, p.0, p.1, hi);
    CountAll(f, p.0, p.1);
    CountNone(f, p.1, hi);
  }

  /** Merged stretches add up to the moments they cover. */
  lemma {:induction false} TotalIsCount(out: seq<Stretch>, f: int -> bool, lo: int, hi: int)
    requires Separate(out, lo, hi) && lo <= hi && forall x :: lo <= x < hi ==> f(x) == Covers(out, x)
    ensures Total(out) == Count(f, lo, hi)
  {
    if |out| == 0 {
      CountNone(f, lo, hi);
    } else {
      var init, p := out[..|out| - 1], out[|out| - 1];
      LastCounts(out, f, lo, hi);
      LastApart(out, lo, hi);
      TotalIsCount(init, f, lo, p.0);
    }
  }

  // ---- the parts of a span's children -----------------------------------------------------

  /** The children's parts inside the span, by start. */
  ghost predicate IsParts(span: Span, children: seq<Span>, parts: seq<Stretch>) {
    && Inside(parts, span.start, End(span)) && SortedBy(parts, (p: Stretch) => p.0)
    && (parts == [] <==> !HasPart(span, children))
    && (forall x :: Covers(parts, x) <==> Busy(span, children, x))
  }

  lemma BusyLast(span: Span, children: seq<Span>, n: nat, x: int)
    requires n < |children|
    ensures Busy(span, children[..n + 1], x) <==>
            Busy(span, children[..n], x) || (span.start <= x < End(span) && children[n].start <= x < End(children[n]))
  {
    var all, some := children[..n + 1], children[..n];
    if Busy(span, all, x) {
      var k :| 0 <= k < |all| && all[k].start <= x < End(all[k]);
      if k < n { assert some[k] == all[k]; }
    }
    if Busy(span, some, x) {
      var k :| 0 <= k < |some| && some[k].start <= x < End(some[k]);
      assert all[k] == some[k];
    }
    assert all[n] == children[n];
  }

  lemma HasPartLast(span: Span, children: seq<Span>, n: nat)
    requires n < |children|
    ensures HasPart(span, children[..n + 1]) <==>
            HasPart(span, children[..n]) || (Within(children[n], span.start, End(span))).Some?
  {
    var all, some := children[..n + 1], children[..n];
    assert forall k :: 0 <= k < n ==> all[k] == some[k];
    assert all[n] == children[n];
  }

  lemma SameCover(a: seq<Stretch>, b: seq<Stretch>)
    requires forall p :: p in a <==> p in b
    ensures forall x :: Covers(a, x) <==> Covers(b, x)
    ensures forall lo, hi :: Inside(a, lo, hi) ==> Inside(b, lo, hi)
    ensures a == [] <==> b == []
  {
    forall x ensures Covers(a, x) <==> Covers(b, x) {
      if Covers(a, x) {
        var k :| 0 <= k < |a| && In(a[k], x);
        assert a[k] in b;
      }
      if Covers(b, x) {
        var k :| 0 <= k < |b| && In(b[k], x);
        assert b[k] in a;
      }
    }
    forall lo, hi | Inside(a, lo, hi) ensures Inside(b, lo, hi) {
      forall k | 0 <= k < |b| ensures lo <= b[k].0 <= b[k].1 <= hi { assert b[k] in a; }
    }
    if a != [] { assert a[0] in b; }
    if b != [] { assert b[0] in a; }
  }

  method ChildParts(span: Span, children: seq<Span>) returns (parts: seq<Stretch>)
    ensures IsParts(span, children, parts)
  {
    parts := [];
    var n := 0;
    while n < |children|
      invariant 0 <= n <= |children| && Inside(parts, span.start, End(span))
      invariant parts == [] <==> !HasPart(span, children[..n])
      invariant forall x :: Covers(parts, x) <==> Busy(span, children[..n], x)
    {
      var part := Within(children[n], span.start, End(span));
      assert children[..n + 1] == children[..n] + [children[n]];
      ghost var before := parts;
      if part.Some? {
        parts := parts + [part.value];
        assert parts[..|parts| - 1] == before;
        forall x ensures Covers(parts, x) <==> Covers(before, x) || In(part.value, x) { CoversLast(parts, x); }
      }
      forall x ensures Covers(parts, x) <==> Busy(span, children[..n + 1], x) {
        BusyLast(span, children, n, x);
      }
      HasPartLast(span, children, n);
      n := n + 1;
    }
    assert children[..n] == children;
    ghost var found := parts;
    parts := SortByKey(parts, (p: Stretch) => p.0);
    Sorts(found, (p: Stretch) => p.0);
    SameCover(found, parts);
  }

  // ---- self time and waiting time ------------------------------------------------------------

  /** `out` is the first `n` parts, merged. */
  ghost predicate SoFar(span: Span, children: seq<Span>, parts: seq<Stretch>, n: nat, out: seq<Stretch>) {
    && IsParts(span, children, parts) && n <= |parts|
    && Merged(parts[..n], out, span.start, End(span)) && Trails(parts[..n], out)
  }

  lemma NextPart(span: Span, children: seq<Span>, parts: seq<Stretch>, n: nat, out: seq<Stretch>)
    requires SoFar(span, children, parts, n, out) && n < |parts|
    ensures SoFar(span, children, parts, n + 1, Extend(out, parts[n]))
    ensures |out| > 0 ==> out[|out| - 1].0 <= parts[n].0
    ensures parts[n].0 <= parts[n].1
  {
    assert parts[..n + 1] == parts[..n] + [parts[n]];
    var key := (p: Stretch) => p.0;
    if n > 0 {
      assert key(parts[n - 1]) <= key(parts[n]);
      assert parts[..n][n - 1] == parts[n - 1];
    }
    ExtendMerges(parts[..n], out, parts[n], span.start, End(span));
  }

  lemma NoPart(span: Span, children: seq<Span>, parts: seq<Stretch>)
    requires IsParts(span, children, parts)
    ensures SoFar(span, children, parts, 0, [])
  {
  }

  lemma MergedTotal(span: Span, children: seq<Span>, parts: seq<Stretch>, out: seq<Stretch>)
    requires SoFar(span, children, parts, |parts|, out)
    ensures Total(out) == BusyTime(span, children) && Separate(out, span.start, Max(span.start, End(span)))
    ensures forall x :: Covers(out, x) <==> Busy(span, children, x)
  {
    assert parts[..|parts|] == parts;
    if span.duration >= 0 {
      TotalIsCount(out, x => Busy(span, children, x), span.start, End(span));
    }
  }

  lemma BusyFits(span: Span, children: seq<Span>)
    ensures span.duration >= 0 ==> BusyTime(span, children) <= span.duration
    ensures span.duration < 0 ==> BusyTime(span, children) == 0
  {
    var f := x => Busy(span, children, x);
    CountSame(f, f, span.start, End(span));
  }

  lemma TotalExtends(out: seq<Stretch>, p: Stretch)
    ensures Total(Extend(out, p)) ==
            if |out| > 0 && p.0 <= out[|out| - 1].1 then
              Total(out) + Max(out[|out| - 1].1, p.1) - out[|out| - 1].1
            else Total(out) + p.1 - p.0
  {
    var next := Extend(out, p);
    if |out| > 0 && p.0 <= out[|out| - 1].1 {
      assert next[..|next| - 1] == out[..|out| - 1];
    } else {
      assert next[..|next| - 1] == out;
    }
  }

  /** The total of the merged stretches: `busy` for all but the last, which is
      still open. */
  ghost predicate Adding(out: seq<Stretch>, busy: int, from: int, upto: Option<int>) {
    match upto
    case None => out == [] && busy == 0
    case Some(u) =>
      |out| > 0 && out[|out| - 1] == (from, u) && from <= u && Total(out) == busy + (u - from)
  }

  lemma AddNext(out: seq<Stretch>, busy: int, from: int, upto: Option<int>, p: Stretch)
    requires Adding(out, busy, from, upto) && p.0 <= p.1
    ensures if upto.None? || p.0 > upto.value then
              Adding(Extend(out, p), if upto.Some? then busy + (upto.value - from) else busy, p.0, Some(p.1))
            else
              Adding(Extend(out, p), busy, from, Some(Max(upto.value, p.1)))
  {
    TotalExtends(out, p);
  }

  /** The span's duration without the time its children cover. The clamp at zero
      is only ever needed for a span of negative duration. */
  method SelfUs(span: Span, children: seq<Span>) returns (r: int)
    ensures span.duration >= 0 ==> r == span.duration - BusyTime(span, children)
    ensures span.duration < 0 ==> r == 0
    ensures r >= 0
  {
    var parts := ChildParts(span, children);
    var busy, from := 0, 0;
    var upto: Option<int> := None;
    ghost var out: seq<Stretch> := [];
    NoPart(span, children, parts);
    var n := 0;
    while n < |parts|
      invariant n <= |parts| && SoFar(span, children, parts, n, out) && Adding(out, busy, from, upto)
    {
      var p := parts[n];
      NextPart(span, children, parts, n, out);
      AddNext(out, busy, from, upto, p);
      out := Extend(out, p);
      if upto.None? || p.0 > upto.value {
        if upto.Some? && upto.value > from { busy := busy + (upto.value - from); }
        from, upto := p.0, Some(p.1);
      } else {
        upto := Some(Max(upto.value, p.1));
      }
      n := n + 1;
    }
    MergedTotal(span, children, parts, out);
    BusyFits(span, children);
    if upto.Some? && upto.value > from { busy := busy + (upto.value - from); }
    r := Max(0, span.duration - busy);
  }

  /** What a span spent waiting, merged: in order, with time in between, exactly
      the moments its children run, so that waiting and self time make up its
      duration. A call with nothing inside it waited all along. */
  method WaitParts(span: Span, children: seq<Span>) returns (out: seq<Stretch>)
    ensures Separate(out, span.start, Max(span.start, End(span)))
    ensures HasPart(span, children) ==>
              && (forall x :: Covers(out, x) <==> Busy(span, children, x))
              && Total(out) == BusyTime(span, children)
    ensures !HasPart(span, children) ==>
              out == if span.call && span.duration > 0 then [(span.start, End(span))] else []
  {
    var parts := ChildParts(span, children);
    if |parts| == 0 {
      return if span.call && span.duration > 0 then [(span.start, End(span))] else [];
    }
    out := [];
    NoPart(span, children, parts);
    var n := 0;
    while n < |parts|
      invariant n <= |parts| && SoFar(span, children, parts, n, out)
    {
      var p := parts[n];
      NextPart(span, children, parts, n, out);
      if |out| > 0 && p.0 <= out[|out| - 1].1 {
        out := out[|out| - 1 := (out[|out| - 1].0, Max(out[|out| - 1].1, p.1))];
      } else {
        out := out + [p];
      }
      n := n + 1;
    }
    MergedTotal(span, children, parts, out);
  }
}
