/** The time each span of a trace alone held it up, and the time a span spent
    itself or waiting. Times are whole microseconds. */
module TracePath {
  import opened Wrappers
  import opened Sorting

  /** Span ids are numbers here, 0 for none. */
  type Id = nat

  datatype Span = Span(id: Id, parent: Id, start: int, duration: int, error: bool, call: bool)

  /** A row of the waterfall, as far as the critical path looks at it. */
  datatype Line = Line(span: Span, up: Id, root: bool)

  /** A stretch of time that one span holds. */
  datatype Section = Section(id: Id, start: int, end: int)

  function End(s: Span): int {
    s.start + s.duration
  }

  function Max(a: int, b: int): int {
    if a > b then a else b
  }

  function Min(a: int, b: int): int {
    if a < b then a else b
  }

  /** The part of a span inside [start, end), if there is one. */
  function Within(s: Span, start: int, end: int): Option<(int, int)> {
    var from, until := Max(s.start, start), Min(End(s), end);
    if until > from || (until == from && s.duration == 0) then Some((from, until)) else None
  }

  // ---- the critical path ---------------------------------------------------------

  /** How many sections hold the moment `x`. */
  ghost function Holders(secs: seq<Section>, x: int): nat {
    if |secs| == 0 then 0
    else Holders(secs[..|secs| - 1], x) + if secs[|secs| - 1].start <= x < secs[|secs| - 1].end then 1 else 0
  }

  ghost function Length(secs: seq<Section>): int {
    if |secs| == 0 then 0
    else Length(secs[..|secs| - 1]) + secs[|secs| - 1].end - secs[|secs| - 1].start
  }

  /** The sections hold every moment of [start, end) exactly once, and none
      other: they are disjoint, lie within it, and their lengths add up. */
  ghost predicate Partition(secs: seq<Section>, start: int, end: int) {
    && (forall x :: Holders(secs, x) == if start <= x < end then 1 else 0)
    && Length(secs) == if start < end then end - start else 0
  }

  lemma {:induction false} HoldersConcat(a: seq<Section>, b: seq<Section>, x: int)
    ensures Holders(a + b, x) == Holders(a, x) + Holders(b, x)
  {
    if |b| == 0 {
      assert a + b == a;
    } else {
      assert (a + b)[..|a + b| - 1] == a + b[..|b| - 1];
      HoldersConcat(a, b[..|b| - 1], x);
    }
  }

  lemma {:induction false} LengthConcat(a: seq<Section>, b: seq<Section>)
    ensures Length(a + b) == Length(a) + Length(b)
  {
    if |b| == 0 {
      assert a + b == a;
    } else {
      assert (a + b)[..|a + b| - 1] == a + b[..|b| - 1];
      LengthConcat(a, b[..|b| - 1]);
    }
  }

  /** Neighbouring partitions make one. */
  lemma PartitionJoin(a: seq<Section>, b: seq<Section>, start: int, mid: int, end: int)
    requires Partition(a, mid, end) && Partition(b, start, mid) && start <= mid <= end
    ensures Partition(a + b, start, end)
  {
    forall x ensures Holders(a + b, x) == if start <= x < end then 1 else 0 {
      HoldersConcat(a, b, x);
    }
    LengthConcat(a, b);
  }

  lemma HoldersSplit(a: seq<Section>, b: seq<Section>, c: seq<Section>, d: seq<Section>, x: int)
    ensures Holders(a + (b + (c + d)), x) == Holders(a, x) + Holders(b, x) + Holders(c, x) + Holders(d, x)
  {
    HoldersConcat(a, b + (c + d), x);
    HoldersConcat(b, c + d, x);
    HoldersConcat(c, d, x);
  }

  lemma OneHolder(s: Section, x: int)
    ensures Holders([s], x) == if s.start <= x < s.end then 1 else 0
  {
    assert [s][..0] == [];
  }

  /** Sections of a partition that are apart in the list are apart in time. */
  lemma {:induction false} PartitionDisjoint(secs: seq<Section>, start: int, end: int, i: nat, j: nat)
    requires Partition(secs, start, end) && i < j < |secs|
    requires secs[i].start < secs[i].end && secs[j].start < secs[j].end
    ensures secs[i].end <= secs[j].start || secs[j].end <= secs[i].start
    ensures start <= secs[i].start && secs[i].end <= end
  {
    var x := Max(secs[i].start, secs[j].start);
    var (a, b, c, d) := (secs[..i], [secs[i]], secs[i + 1..j], secs[j..]);
    assert secs == a + (b + (c + d));
    var y, z := secs[i].start, secs[i].end - 1;
    HoldersSplit(a, b, c, d, x);
    HoldersSplit(a, b, c, d, y);
    HoldersSplit(a, b, c, d, z);
    assert d == [secs[j]] + secs[j + 1..];
    HoldersConcat([secs[j]], secs[j + 1..], x);
    OneHolder(secs[i], x);
    OneHolder(secs[i], y);
    OneHolder(secs[i], z);
    OneHolder(secs[j], x);
  }

  /** A span drawn under another comes after it, and ids are not repeated. */
  ghost predicate LinesOk(lines: seq<Line>) {
    && (forall i, j :: 0 <= i < j < |lines| ==> lines[i].span.id != lines[j].span.id)
    && (forall i, j :: 0 <= i < |lines| && 0 <= j < |lines| && lines[j].up == lines[i].span.id && lines[j].up != 0 ==>
          i < j)
  }

  /** `j` hangs below `i`, or is it. */
  ghost predicate Below(lines: seq<Line>, i: nat, j: nat)
    decreases j
  {
    && j < |lines|
    && (j == i
        || exists k :: 0 <= k < j && lines[j].up == lines[k].span.id && lines[j].up != 0 && Below(lines, i, k))
  }

  ghost predicate InTree(lines: seq<Line>, i: nat, id: Id) {
    exists j: nat :: Below(lines, i, j) && lines[j].span.id == id
  }

  /** The sections are of spans at or below `i`, and none is empty. */
  ghost predicate OfTree(lines: seq<Line>, i: nat, secs: seq<Section>) {
    forall k :: 0 <= k < |secs| ==> InTree(lines, i, secs[k].id) && secs[k].start < secs[k].end
  }

  lemma {:induction false} BelowTrans(lines: seq<Line>, i: nat, j: nat, k: nat)
    requires Below(lines, i, j) && Below(lines, j, k)
    ensures Below(lines, i, k)
    decreases k
  {
    if k != j {
      var m: nat :| m < k && lines[k].up == lines[m].span.id && lines[k].up != 0 && Below(lines, j, m);
      BelowTrans(lines, i, j, m);
    }
  }

  lemma OfTreeBelow(lines: seq<Line>, i: nat, j: nat, secs: seq<Section>)
    requires Below(lines, i, j) && OfTree(lines, j, secs)
    ensures OfTree(lines, i, secs)
  {
    forall k | 0 <= k < |secs| ensures InTree(lines, i, secs[k].id) {
      assert InTree(lines, j, secs[k].id);
      var m: nat :| Below(lines, j, m) && lines[m].span.id == secs[k].id;
      BelowTrans(lines, i, j, m);
    }
  }

  lemma OfTreeConcat(lines: seq<Line>, i: nat, a: seq<Section>, b: seq<Section>)
    requires OfTree(lines, i, a) && OfTree(lines, i, b)
    ensures OfTree(lines, i, a + b)
  {
  }

  /** A section, if it is not empty. */
  function Add(id: Id, start: int, end: int): seq<Section> {
    if end <= start then [] else [Section(id, start, end)]
  }

  lemma AddIsPartition(lines: seq<Line>, i: nat, start: int, end: int)
    requires i < |lines|
    ensures Partition(Add(lines[i].span.id, start, end), start, end)
    ensures OfTree(lines, i, Add(lines[i].span.id, start, end))
  {
    if start < end {
      var s := Section(lines[i].span.id, start, end);
      forall x ensures Holders([s], x) == if start <= x < end then 1 else 0 { OneHolder(s, x); }
      assert [s][..0] == [];
      assert Below(lines, i, i);
    }
  }

  /** A child of a span, by its line, with its part inside the span. */
  datatype Part = Part(line: nat, from: int, until: int)

  /** The parts of the children of line `i` among the first `n` lines. */
  ghost function AllParts(lines: seq<Line>, i: nat, start: int, end: int, n: nat): seq<Part>
    requires i < |lines| && n <= |lines|
  {
    if n == 0 then []
    else
      var l := lines[n - 1];
      var part := Within(l.span, start, end);
      AllParts(lines, i, start, end, n - 1)
      + if l.up != 0 && l.up == lines[i].span.id && part.Some? then [Part(n - 1, part.value.0, part.value.1)] else []
  }

  ghost predicate ChildPart(lines: seq<Line>, i: nat, start: int, end: int, p: Part)
    requires i < |lines|
  {
    && i < p.line < |lines| && lines[p.line].up == lines[i].span.id && lines[p.line].up != 0
    && start <= p.from <= p.until <= end
  }

  lemma {:induction false} PartsOk(lines: seq<Line>, i: nat, start: int, end: int, n: nat)
    requires LinesOk(lines) && i < |lines| && n <= |lines|
    ensures forall p :: p in AllParts(lines, i, start, end, n) ==> ChildPart(lines, i, start, end, p) && p.line < n
    ensures StrictlySortedBy(AllParts(lines, i, start, end, n), (p: Part) => p.line)
  {
    if n > 0 {
      PartsOk(lines, i, start, end, n - 1);
    }
  }

  /** The child that finished last by `t`, of those that took any time; the one
      drawn first if several did. */
  ghost function Latest(parts: seq<Part>, t: int): Option<Part> {
    if |parts| == 0 then None
    else
      var best, p := Latest(parts[..|parts| - 1], t), parts[|parts| - 1];
      if p.from < p.until <= t && (best.None? || p.until > best.value.until) then Some(p) else best
  }

  ghost predicate IsLatest(parts: seq<Part>, t: int, p: Part) {
    && p in parts && p.from < p.until <= t
    && forall q :: q in parts && q.from < q.until <= t ==>
         q.until < p.until || (q.until == p.until && p.line <= q.line)
  }

  lemma {:induction false} LatestIs(parts: seq<Part>, t: int)
    requires StrictlySortedBy(parts, (p: Part) => p.line)
    ensures Latest(parts, t).Some? ==> IsLatest(parts, t, Latest(parts, t).value)
    ensures Latest(parts, t).None? ==> forall q :: q in parts ==> !(q.from < q.until <= t)
  {
    if |parts| > 0 {
      var init, last := parts[..|parts| - 1], parts[|parts| - 1];
      var line := (p: Part) => p.line;
      assert forall k :: 0 <= k < |init| ==> line(parts[k]) < line(last);
      LatestIs(init, t);
    }
  }

  lemma SameLine(parts: seq<Part>, p: Part, q: Part)
    requires StrictlySortedBy(parts, (p: Part) => p.line) && p in parts && q in parts && p.line == q.line
    ensures p == q
  {
    var line := (p: Part) => p.line;
    var i :| 0 <= i < |parts| && parts[i] == p;
    var j :| 0 <= j < |parts| && parts[j] == q;
    assert line(parts[i]) == line(parts[j]);
  }

  lemma LatestUnique(parts: seq<Part>, t: int, p: Part)
    requires StrictlySortedBy(parts, (q: Part) => q.line) && IsLatest(parts, t, p)
    ensures Latest(parts, t) == Some(p)
  {
    LatestIs(parts, t);
    var l := Latest(parts, t).value;
    assert l.until == p.until && l.line == p.line;
    SameLine(parts, l, p);
  }

  /** Who holds the moment `x` of span `i` in [start, end), looking back from
      `t`: the span itself since its last child finished, that child, down its
      own children, while it ran, and before that as seen from its start. */
  ghost function Holder(lines: seq<Line>, i: nat, start: int, end: int, t: int, x: int): Id
    requires LinesOk(lines) && i < |lines|
    decreases |lines| - i, if t > start then t - start else 0
  {
    var parts := AllParts(lines, i, start, end, |lines|);
    PartsOk(lines, i, start, end, |lines|);
    LatestIs(parts, t);
    match Latest(parts, t)
    case None => lines[i].span.id
    case Some(p) =>
      if x >= p.until then lines[i].span.id
      else if x >= p.from then Holder(lines, p.line, p.from, p.until, p.until, x)
      else Holder(lines, i, start, end, p.from, x)
  }

  /** The line is a child of line `i` that ran in [start, end): the part is its time
      there, which may be none if it took none at all. */
  ghost predicate RanIn(lines: seq<Line>, i: nat, start: int, end: int, p: Part)
    requires i < |lines|
  {
    && p.line < |lines| && lines[p.line].up == lines[i].span.id && lines[p.line].up != 0
    && var s := lines[p.line].span;
       && p.from == (if s.start > start then s.start else start)
       && p.until == (if s.start + s.duration < end then s.start + s.duration else end)
       && (p.from < p.until || (p.from == p.until && s.duration == 0))
  }

  /** The parts are those, of all children and no others. */
  lemma {:induction false} PartsAre(lines: seq<Line>, i: nat, start: int, end: int, n: nat, p: Part)
    requires i < |lines| && n <= |lines|
    ensures p in AllParts(lines, i, start, end, n) <==> p.line < n && RanIn(lines, i, start, end, p)
  {
    if n > 0 { PartsAre(lines, i, start, end, n - 1, p); }
  }

  /** Of the children that took time there and were over by `t`, `p` is the one that
      finished last, or was drawn first of those that did. */
  ghost predicate FinishedLast(lines: seq<Line>, i: nat, start: int, end: int, t: int, p: Part)
    requires i < |lines|
  {
    && RanIn(lines, i, start, end, p) && p.from < p.until <= t
    && forall q :: RanIn(lines, i, start, end, q) && q.from < q.until <= t ==>
         q.until < p.until || (q.until == p.until && p.line <= q.line)
  }

  /** The holder, said of the spans: without such a child the span itself; with one
      the span after it, the child while it ran, and before that as seen from its
      start. */
  lemma HolderIs(lines: seq<Line>, i: nat, start: int, end: int, t: int, x: int, p: Part)
    requires LinesOk(lines) && i < |lines|
    ensures (forall q :: RanIn(lines, i, start, end, q) ==> !(q.from < q.until <= t)) ==>
              Holder(lines, i, start, end, t, x) == lines[i].span.id
    ensures FinishedLast(lines, i, start, end, t, p) ==>
              Holder(lines, i, start, end, t, x) ==
              if x >= p.until then lines[i].span.id
              else if x >= p.from then Holder(lines, p.line, p.from, p.until, p.until, x)
              else Holder(lines, i, start, end, p.from, x)
  {
    var parts := AllParts(lines, i, start, end, |lines|);
    PartsOk(lines, i, start, end, |lines|);
    LatestIs(parts, t);
    forall q ensures q in parts <==> RanIn(lines, i, start, end, q) { PartsAre(lines, i, start, end, |lines|, q); }
    if FinishedLast(lines, i, start, end, t, p) { LatestUnique(parts, t, p); }
  }

  /** Each section is its holder's, as seen from `t`. */
  ghost predicate HeldRight(lines: seq<Line>, i: nat, start: int, end: int, t: int, secs: seq<Section>)
    requires LinesOk(lines) && i < |lines|
  {
    forall k, x :: 0 <= k < |secs| && secs[k].start <= x < secs[k].end ==>
      secs[k].id == Holder(lines, i, start, end, t, x)
  }

  method PartsOf(lines: seq<Line>, i: nat, start: int, end: int) returns (parts: seq<Part>)
    requires LinesOk(lines) && i < |lines|
    ensures parts == AllParts(lines, i, start, end, |lines|)
  {
    parts := [];
    var j := 0;
    while j < |lines|
      invariant 0 <= j <= |lines|
      invariant parts == AllParts(lines, i, start, end, j)
    {
      if lines[j].up != 0 && lines[j].up == lines[i].span.id {
        var part := Within(lines[j].span, start, end);
        if part.Some? {
          parts := parts + [Part(j, part.value.0, part.value.1)];
        }
      }
      j := j + 1;
    }
  }

  /** The sorted parts from the `n`-th on: all the parts that took time and are
      over by `t` are among them. */
  ghost predicate Left(all: seq<Part>, sorted: seq<Part>, n: nat, t: int) {
    n <= |sorted| && forall q :: q in all && q.from < q.until <= t ==> q in sorted[n..]
  }

  /** The next part in order, if it is over by `t` and took time, is the latest. */
  lemma NextIsLatest(all: seq<Part>, sorted: seq<Part>, n: nat, t: int)
    requires StrictlySortedBy(all, (p: Part) => p.line)
    requires forall p :: p in sorted <==> p in all
    requires SortedBy(sorted, (p: Part) => -p.until)
    requires RankedBy(sorted, (p: Part) => -p.until, (p: Part) => p.line)
    requires Left(all, sorted, n, t) && n < |sorted| && sorted[n].from < sorted[n].until <= t
    ensures Latest(all, t) == Some(sorted[n])
  {
    var p := sorted[n];
    var key, line := (p: Part) => -p.until, (p: Part) => p.line;
    assert p in sorted;
    forall q | q in all && q.from < q.until <= t
      ensures q.until < p.until || (q.until == p.until && p.line <= q.line)
    {
      var k :| 0 <= k < |sorted[n..]| && sorted[n..][k] == q;
      assert sorted[n + k] == q;
      if k > 0 { assert key(p) <= key(q) && (key(p) == key(q) ==> line(p) < line(q)); }
    }
    assert IsLatest(all, t, p);
    LatestUnique(all, t, p);
  }

  /** Nothing that took time finished between the next part's end and `t`. */
  lemma NothingBetween(all: seq<Part>, sorted: seq<Part>, n: nat, t: int)
    requires StrictlySortedBy(all, (p: Part) => p.line)
    requires SortedBy(sorted, (p: Part) => -p.until)
    requires Left(all, sorted, n, t) && n < |sorted| && sorted[n].until <= t
    ensures Latest(all, t) == Latest(all, sorted[n].until)
    ensures Latest(all, t).Some? ==> Latest(all, t).value.until <= sorted[n].until
  {
    var p := sorted[n];
    var key := (p: Part) => -p.until;
    forall q | q in all && q.from < q.until <= t ensures q.until <= p.until {
      var k :| 0 <= k < |sorted[n..]| && sorted[n..][k] == q;
      assert sorted[n + k] == q;
      if k > 0 { assert key(p) <= key(q); }
    }
    LatestIs(all, t);
    LatestIs(all, p.until);
    if Latest(all, t).Some? {
      assert IsLatest(all, p.until, Latest(all, t).value);
      LatestUnique(all, p.until, Latest(all, t).value);
    }
  }

  /** What is held from `t` on, the span's own time before it down to the next
      child's end, and what that child's walk found make one partition. */
  lemma ChildJoins(lines: seq<Line>, i: nat, p: Part, secs: seq<Section>, below: seq<Section>, t: int, end: int)
    requires i < p.line < |lines| && lines[p.line].up == lines[i].span.id && lines[p.line].up != 0
    requires Partition(secs, t, end) && OfTree(lines, i, secs) && p.from <= p.until <= t <= end
    requires Partition(below, p.from, p.until) && OfTree(lines, p.line, below)
    ensures var all := secs + Add(lines[i].span.id, p.until, t) + below;
            Partition(all, p.from, end) && OfTree(lines, i, all)
  {
    var own := Add(lines[i].span.id, p.until, t);
    AddIsPartition(lines, i, p.until, t);
    PartitionJoin(secs, own, p.until, t, end);
    OfTreeConcat(lines, i, secs, own);
    PartitionJoin(secs + own, below, p.from, p.until, end);
    assert Below(lines, i, i);
    assert Below(lines, i, p.line);
    OfTreeBelow(lines, i, p.line, below);
    OfTreeConcat(lines, i, secs + own, below);
  }

  /** `sorted` are the parts of line `i`'s children, latest end first. */
  ghost predicate SortedParts(lines: seq<Line>, i: nat, start: int, end: int, sorted: seq<Part>)
    requires i < |lines|
  {
    var all := AllParts(lines, i, start, end, |lines|);
    && (forall p :: p in sorted <==> p in all)
    && SortedBy(sorted, (p: Part) => -p.until)
    && RankedBy(sorted, (p: Part) => -p.until, (p: Part) => p.line)
  }

  lemma SortParts(lines: seq<Line>, i: nat, start: int, end: int)
    requires LinesOk(lines) && i < |lines|
    ensures SortedParts(lines, i, start, end, SortByKey(AllParts(lines, i, start, end, |lines|), (p: Part) => -p.until))
  {
    var all := AllParts(lines, i, start, end, |lines|);
    PartsOk(lines, i, start, end, |lines|);
    Sorts(all, (p: Part) => -p.until);
    SortIsStable(all, (p: Part) => -p.until, (p: Part) => p.line);
  }

  lemma LeftAfter(all: seq<Part>, sorted: seq<Part>, n: nat, t: int)
    requires Left(all, sorted, n, t) && n < |sorted| && sorted[n].from <= sorted[n].until <= t
    ensures Left(all, sorted, n + 1, sorted[n].from)
  {
    assert sorted[n..] == [sorted[n]] + sorted[n + 1..];
  }

  /** Who holds `x` once the next part is taken: the span, the part's own walk, or
      whoever holds it as seen from the part's start. */
  ghost predicate TakenAt(lines: seq<Line>, i: nat, start: int, end: int, t: int, p: Part, x: int)
    requires LinesOk(lines) && i < |lines| && p.line < |lines|
  {
    Holder(lines, i, start, end, t, x) ==
      if x >= p.until then lines[i].span.id
      else if x >= p.from then Holder(lines, p.line, p.from, p.until, p.until, x)
      else Holder(lines, i, start, end, p.from, x)
  }

  lemma HolderOfLatest(lines: seq<Line>, i: nat, start: int, end: int, t: int, p: Part, x: int)
    requires LinesOk(lines) && i < |lines| && p.line < |lines| && p.from < p.until
    requires Latest(AllParts(lines, i, start, end, |lines|), t) == Some(p)
    ensures TakenAt(lines, i, start, end, t, p, x)
  {
  }

  lemma HolderSeenFrom(lines: seq<Line>, i: nat, start: int, end: int, t: int, p: Part, x: int)
    requires LinesOk(lines) && i < |lines| && p.line < |lines| && p.from == p.until
    requires var all := AllParts(lines, i, start, end, |lines|);
             Latest(all, t) == Latest(all, p.until)
             && (Latest(all, t).Some? ==> Latest(all, t).value.until <= p.until)
    ensures TakenAt(lines, i, start, end, t, p, x)
  {
  }

  lemma TakePart(lines: seq<Line>, i: nat, start: int, end: int, sorted: seq<Part>, n: nat, t: int, x: int)
    requires LinesOk(lines) && i < |lines| && SortedParts(lines, i, start, end, sorted)
    requires Left(AllParts(lines, i, start, end, |lines|), sorted, n, t) && n < |sorted| && sorted[n].until <= t
    requires ChildPart(lines, i, start, end, sorted[n])
    ensures TakenAt(lines, i, start, end, t, sorted[n], x)
  {
    var all, p := AllParts(lines, i, start, end, |lines|), sorted[n];
    PartsOk(lines, i, start, end, |lines|);
    if p.from < p.until {
      NextIsLatest(all, sorted, n, t);
      HolderOfLatest(lines, i, start, end, t, p, x);
    } else {
      NothingBetween(all, sorted, n, t);
      HolderSeenFrom(lines, i, start, end, t, p, x);
    }
  }

  /** What is held so far is held right, and the rest is as seen from `t`. */
  ghost predicate Progress(lines: seq<Line>, i: nat, start: int, end: int, t: int, secs: seq<Section>)
    requires LinesOk(lines) && i < |lines|
  {
    && HeldRight(lines, i, start, end, end, secs)
    && forall x :: x < t ==> Holder(lines, i, start, end, end, x) == Holder(lines, i, start, end, t, x)
  }

  lemma HeldConcat(lines: seq<Line>, i: nat, start: int, end: int, t: int, a: seq<Section>, b: seq<Section>)
    requires LinesOk(lines) && i < |lines|
    requires HeldRight(lines, i, start, end, t, a) && HeldRight(lines, i, start, end, t, b)
    ensures HeldRight(lines, i, start, end, t, a + b)
  {
    var all := a + b;
    forall k, x | 0 <= k < |all| && all[k].start <= x < all[k].end
      ensures all[k].id == Holder(lines, i, start, end, t, x)
    {
      if k < |a| {
        assert all[k] == a[k];
      } else {
        assert all[k] == b[k - |a|];
      }
    }
  }

  lemma ProgressPart(lines: seq<Line>, i: nat, start: int, end: int, sorted: seq<Part>, n: nat, t: int,
                     secs: seq<Section>, below: seq<Section>)
    requires LinesOk(lines) && i < |lines| && SortedParts(lines, i, start, end, sorted)
    requires Left(AllParts(lines, i, start, end, |lines|), sorted, n, t) && n < |sorted| && sorted[n].until <= t
    requires ChildPart(lines, i, start, end, sorted[n])
    requires Progress(lines, i, start, end, t, secs)
    requires var p := sorted[n];
             && HeldRight(lines, p.line, p.from, p.until, p.until, below)
             && forall k :: 0 <= k < |below| ==> p.from <= below[k].start && below[k].end <= p.until
    ensures var p := sorted[n];
            && Left(AllParts(lines, i, start, end, |lines|), sorted, n + 1, p.from)
            && Progress(lines, i, start, end, p.from, secs + Add(lines[i].span.id, p.until, t) + below)
  {
    var p := sorted[n];
    LeftAfter(AllParts(lines, i, start, end, |lines|), sorted, n, t);
    var own := Add(lines[i].span.id, p.until, t);
    forall x | x < t
      ensures Holder(lines, i, start, end, end, x) ==
                if x >= p.until then lines[i].span.id
                else if x >= p.from then Holder(lines, p.line, p.from, p.until, p.until, x)
                else Holder(lines, i, start, end, p.from, x)
    {
      TakePart(lines, i, start, end, sorted, n, t, x);
    }
    assert HeldRight(lines, i, start, end, end, own);
    assert HeldRight(lines, i, start, end, end, below);
    HeldConcat(lines, i, start, end, end, secs, own);
    HeldConcat(lines, i, start, end, end, secs + own, below);
  }

  lemma LeftSkips(all: seq<Part>, sorted: seq<Part>, n: nat, t: int)
    requires Left(all, sorted, n, t) && n < |sorted| && sorted[n].until > t
    ensures Left(all, sorted, n + 1, t)
  {
    assert sorted[n..] == [sorted[n]] + sorted[n + 1..];
  }

  /** What no part is left for is the span's own. */
  lemma ProgressRest(lines: seq<Line>, i: nat, start: int, end: int, sorted: seq<Part>, t: int, secs: seq<Section>)
    requires LinesOk(lines) && i < |lines|
    requires Left(AllParts(lines, i, start, end, |lines|), sorted, |sorted|, t)
    requires Progress(lines, i, start, end, t, secs)
    ensures HeldRight(lines, i, start, end, end, secs + Add(lines[i].span.id, start, t))
  {
    var parts := AllParts(lines, i, start, end, |lines|);
    PartsOk(lines, i, start, end, |lines|);
    LatestIs(parts, t);
    var own := Add(lines[i].span.id, start, t);
    var all := secs + own;
    forall k, x | 0 <= k < |all| && all[k].start <= x < all[k].end
      ensures all[k].id == Holder(lines, i, start, end, end, x)
    {
      if k < |secs| { assert all[k] == secs[k]; } else { assert all[k] == own[k - |secs|]; }
    }
  }

  lemma HeldBySection(secs: seq<Section>, k: nat, x: int)
    requires k < |secs| && secs[k].start <= x < secs[k].end
    ensures Holders(secs, x) >= 1
  {
    assert secs == secs[..k] + ([secs[k]] + ([] + secs[k + 1..]));
    HoldersSplit(secs[..k], [secs[k]], [], secs[k + 1..], x);
    OneHolder(secs[k], x);
  }

  lemma {:induction false} WithinPartition(secs: seq<Section>, start: int, end: int)
    requires Partition(secs, start, end) && forall k :: 0 <= k < |secs| ==> secs[k].start < secs[k].end
    ensures forall k :: 0 <= k < |secs| ==> start <= secs[k].start && secs[k].end <= end
  {
    forall k | 0 <= k < |secs| ensures start <= secs[k].start && secs[k].end <= end {
      HeldBySection(secs, k, secs[k].start);
      HeldBySection(secs, k, secs[k].end - 1);
    }
  }

  /** The sections part [start, end) among the spans at and below `i`, and each
      moment is its holder's. */
  ghost predicate WalkRight(lines: seq<Line>, i: nat, start: int, end: int, secs: seq<Section>)
    requires LinesOk(lines) && i < |lines|
  {
    Partition(secs, start, end) && HeldRight(lines, i, start, end, end, secs) && OfTree(lines, i, secs)
  }

  /** Where a walk is: the time from `t` on is held. */
  ghost predicate Walking(lines: seq<Line>, i: nat, start: int, end: int, sorted: seq<Part>, n: nat, t: int,
                          secs: seq<Section>)
    requires LinesOk(lines) && i < |lines|
  {
    && SortedParts(lines, i, start, end, sorted) && n <= |sorted|
    && (forall k :: 0 <= k < |sorted| ==> ChildPart(lines, i, start, end, sorted[k]))
    && t <= end && (n > 0 ==> start <= t) && (n == 0 ==> t == end && secs == [])
    && Partition(secs, t, end) && OfTree(lines, i, secs)
    && Left(AllParts(lines, i, start, end, |lines|), sorted, n, t)
    && Progress(lines, i, start, end, t, secs)
  }

  lemma WalkBegins(lines: seq<Line>, i: nat, start: int, end: int)
    requires LinesOk(lines) && i < |lines|
    ensures Walking(lines, i, start, end,
                    SortByKey(AllParts(lines, i, start, end, |lines|), (p: Part) => -p.until), 0, end, [])
  {
    var sorted := SortByKey(AllParts(lines, i, start, end, |lines|), (p: Part) => -p.until);
    SortParts(lines, i, start, end);
    PartsOk(lines, i, start, end, |lines|);
    assert sorted[0..] == sorted;
    AddIsPartition(lines, i, end, end);
    forall k | 0 <= k < |sorted| ensures ChildPart(lines, i, start, end, sorted[k]) {
      assert sorted[k] in sorted;
    }
  }

  lemma WalkTakes(lines: seq<Line>, i: nat, start: int, end: int, sorted: seq<Part>, n: nat, t: int,
                  secs: seq<Section>, below: seq<Section>)
    requires LinesOk(lines) && i < |lines| && Walking(lines, i, start, end, sorted, n, t, secs)
    requires n < |sorted| && sorted[n].until <= t
    requires ChildPart(lines, i, start, end, sorted[n])
    requires var p := sorted[n]; WalkRight(lines, p.line, p.from, p.until, below)
    ensures Walking(lines, i, start, end, sorted, n + 1, sorted[n].from,
                    secs + Add(lines[i].span.id, sorted[n].until, t) + below)
  {
    var p := sorted[n];
    WithinPartition(below, p.from, p.until);
    ChildJoins(lines, i, p, secs, below, t, end);
    ProgressPart(lines, i, start, end, sorted, n, t, secs, below);
  }

  lemma WalkSkips(lines: seq<Line>, i: nat, start: int, end: int, sorted: seq<Part>, n: nat, t: int, secs: seq<Section>)
    requires LinesOk(lines) && i < |lines| && Walking(lines, i, start, end, sorted, n, t, secs)
    requires n < |sorted| && sorted[n].until > t
    ensures Walking(lines, i, start, end, sorted, n + 1, t, secs)
  {
    LeftSkips(AllParts(lines, i, start, end, |lines|), sorted, n, t);
    assert ChildPart(lines, i, start, end, sorted[n]);
  }

  lemma WalkEnds(lines: seq<Line>, i: nat, start: int, end: int, sorted: seq<Part>, t: int, secs: seq<Section>)
    requires LinesOk(lines) && i < |lines| && Walking(lines, i, start, end, sorted, |sorted|, t, secs)
    ensures WalkRight(lines, i, start, end, secs + Add(lines[i].span.id, start, t))
  {
    ProgressRest(lines, i, start, end, sorted, t, secs);
    var own := Add(lines[i].span.id, start, t);
    AddIsPartition(lines, i, start, t);
    if start <= t {
      PartitionJoin(secs, own, start, t, end);
      OfTreeConcat(lines, i, secs, own);
    } else {
      assert secs + own == own;
    }
  }

  /** The next child, if it was over by `t`: what it holds, down its own children,
      and before that what the span held itself. */
  method WalkPart(lines: seq<Line>, i: nat, start: int, end: int, parts: seq<Part>, n: nat, t: int, secs: seq<Section>)
    returns (t': int, secs': seq<Section>)
    requires LinesOk(lines) && i < |lines| && Walking(lines, i, start, end, parts, n, t, secs) && n < |parts|
    ensures Walking(lines, i, start, end, parts, n + 1, t', secs')
    decreases |lines| - i, 0
  {
    var p := parts[n];
    assert ChildPart(lines, i, start, end, p);
    if p.until <= t {
      var below := Walk(lines, p.line, p.from, p.until);
      WalkTakes(lines, i, start, end, parts, n, t, secs, below);
      return p.from, secs + Add(lines[i].span.id, p.until, t) + below;
    }
    WalkSkips(lines, i, start, end, parts, n, t, secs);
    return t, secs;
  }

  /** From the end back: the child that finished last before each moment holds
      it, down its own children; what no child holds is the span's own. The
      sections partition [start, end), and each is its holder's. */
  method Walk(lines: seq<Line>, i: nat, start: int, end: int) returns (secs: seq<Section>)
    requires LinesOk(lines) && i < |lines|
    ensures WalkRight(lines, i, start, end, secs)
    decreases |lines| - i, 1
  {
    var parts := PartsOf(lines, i, start, end);
    WalkBegins(lines, i, start, end);
    parts := SortByKey(parts, (p: Part) => -p.until);
    var t := end;
    secs := [];
    var n := 0;
    while n < |parts|
      invariant n <= |parts| && Walking(lines, i, start, end, parts, n, t, secs)
    {
      t, secs := WalkPart(lines, i, start, end, parts, n, t, secs);
      n := n + 1;
    }
    WalkEnds(lines, i, start, end, parts, t, secs);
    secs := secs + Add(lines[i].span.id, start, t);
  }

  /** The sections of one root. */
  datatype RootPath = RootPath(line: nat, sections: seq<Section>)

  ghost predicate PathRight(lines: seq<Line>, p: RootPath)
    requires LinesOk(lines) && p.line < |lines|
  {
    lines[p.line].root && WalkRight(lines, p.line, lines[p.line].span.start, End(lines[p.line].span), p.sections)
  }

  /** The roots among the first `n` lines, each once and in order, with their
      sections. */
  ghost predicate PathsRight(lines: seq<Line>, r: seq<RootPath>, n: nat)
    requires LinesOk(lines) && n <= |lines|
  {
    && (forall k :: 0 <= k < |r| ==> r[k].line < n && PathRight(lines, r[k]))
    && (forall i :: 0 <= i < n && lines[i].root ==> exists k :: 0 <= k < |r| && r[k].line == i)
    && (forall j, k :: 0 <= j < k < |r| ==> r[j].line < r[k].line)
  }

  lemma NextRoot(lines: seq<Line>, r: seq<RootPath>, n: nat, secs: seq<Section>)
    requires LinesOk(lines) && n < |lines| && PathsRight(lines, r, n) && PathRight(lines, RootPath(n, secs))
    ensures PathsRight(lines, r + [RootPath(n, secs)], n + 1)
  {
    var all := r + [RootPath(n, secs)];
    forall i | 0 <= i < n + 1 && lines[i].root ensures exists k :: 0 <= k < |all| && all[k].line == i {
      if i < n {
        var k :| 0 <= k < |r| && r[k].line == i;
        assert all[k].line == i;
      } else {
        assert all[|r|].line == i;
      }
    }
  }

  /** For each root, sections of it and of the spans below it that partition its
      time, whatever its children's clocks say. */
  method CriticalPath(lines: seq<Line>) returns (r: seq<RootPath>)
    requires LinesOk(lines)
    ensures PathsRight(lines, r, |lines|)
  {
    r := [];
    var i := 0;
    while i < |lines|
      invariant 0 <= i <= |lines| && PathsRight(lines, r, i)
    {
      if lines[i].root {
        var secs := Walk(lines, i, lines[i].span.start, End(lines[i].span));
        NextRoot(lines, r, i, secs);
        r := r + [RootPath(i, secs)];
      }
      i := i + 1;
    }
  }
}
