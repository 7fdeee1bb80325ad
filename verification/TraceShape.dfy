/** What the rows of a drawn trace tell a reader: the levels, the ancestors and
    the numbers of spans below are those of the tree that was drawn. */
module TraceShape {
  import opened Lists
  import opened TracePath
  import opened TraceRows

  /** A row's ancestors and the row. */
  function Own(r: Row): seq<Id> {
    r.path + [r.span.id]
  }

  function RowId(): Row -> nat {
    (r: Row) => r.span.id
  }

  /** Rows right under `path`, and rows anywhere under it. */
  function IsUnder(path: seq<Id>): Row -> bool {
    (r: Row) => r.path == path
  }

  function Hangs(path: seq<Id>): Row -> bool {
    (r: Row) => path <= r.path
  }

  /** `b` is drawn after `a`: under it, or beside it or one of its ancestors. */
  ghost predicate Follows(a: Row, b: Row) {
    b.depth <= a.depth + 1 <= |Own(a)| && b.path == Own(a)[..b.depth] && (b.depth == a.depth + 1 ==> a.children > 0)
  }

  ghost predicate Level(r: Row, path: seq<Id>) {
    |r.path| == r.depth && path <= r.path && r.up == Up(r.path)
  }

  /** Rows drawn one after the other under `path`, in preorder. */
  ghost predicate Preorder(rows: seq<Row>, path: seq<Id>) {
    && (|rows| > 0 ==> rows[0].path == path)
    && (forall k :: 0 <= k < |rows| ==> Level(rows[k], path))
    && (forall k :: 0 < k < |rows| ==> Follows(rows[k - 1], rows[k]))
  }

  lemma PreorderConcat(a: seq<Row>, b: seq<Row>, path: seq<Id>)
    requires Preorder(a, path) && Preorder(b, path)
    ensures Preorder(a + b, path)
  {
    var ab := a + b;
    forall k | 0 <= k < |ab| ensures Level(ab[k], path) {
      assert ab[k] == if k < |a| then a[k] else b[k - |a|];
    }
    forall k | 0 < k < |ab| ensures Follows(ab[k - 1], ab[k]) {
      if k < |a| {
        assert Follows(a[k - 1], a[k]);
      } else if k > |a| {
        assert Follows(b[k - 1 - |a|], b[k - |a|]);
      } else {
        assert ab[k] == b[0] && ab[k - 1] == a[k - 1];
        assert Own(a[k - 1])[..|path|] == path;
      }
    }
  }

  lemma {:induction false} DrawPreorder(t: Tree, depth: nat, path: seq<Id>, rails: seq<bool>, last: bool)
    requires |path| == depth
    ensures Preorder(Draw(t, depth, path, rails, last), path)
    decreases t
  {
    var rows := Draw(t, depth, path, rails, last);
    var under := path + [t.span.id];
    var kids := DrawAll(t.kids, |t.kids|, depth + 1, under, if depth == 0 then [] else rails + [!last]);
    DrawAllPreorder(t.kids, |t.kids|, depth + 1, under, if depth == 0 then [] else rails + [!last]);
    assert rows == [rows[0]] + kids;
    forall k | 0 <= k < |rows| ensures Level(rows[k], path) {
      if k > 0 { assert rows[k] == kids[k - 1]; }
    }
    forall k | 0 < k < |rows| ensures Follows(rows[k - 1], rows[k]) {
      assert rows[k] == kids[k - 1];
      if k > 1 {
        assert Follows(kids[k - 2], kids[k - 1]);
      } else {
        assert Own(rows[0])[..depth + 1] == under;
      }
    }
  }

  lemma {:induction false} DrawAllPreorder(ts: seq<Tree>, total: nat, depth: nat, path: seq<Id>, rails: seq<bool>)
    requires |path| == depth
    ensures Preorder(DrawAll(ts, total, depth, path, rails), path)
    decreases ts
  {
    if |ts| > 0 {
      DrawAllPreorder(ts[..|ts| - 1], total, depth, path, rails);
      DrawPreorder(ts[|ts| - 1], depth, path, rails, depth == 0 || |ts| == total);
      PreorderConcat(DrawAll(ts[..|ts| - 1], total, depth, path, rails),
                     Draw(ts[|ts| - 1], depth, path, rails, depth == 0 || |ts| == total), path);
    }
  }

  // ---- which tree a row is of ------------------------------------------------------------

  /** Each row is of a tree drawn at `path` whose root is one of `ids`. */
  ghost predicate Within(rows: seq<Row>, path: seq<Id>, ids: set<Id>) {
    forall r :: r in rows ==> path <= r.path && Own(r)[|path|] in ids && r.span.id in ids
  }

  lemma {:induction false} DrawWithin(t: Tree, depth: nat, path: seq<Id>, rails: seq<bool>, last: bool)
    requires |path| == depth
    ensures Within(Draw(t, depth, path, rails, last), path, Ids(t))
    ensures forall r :: r in Draw(t, depth, path, rails, last) ==> path <= r.path && Own(r)[|path|] == t.span.id
    decreases t
  {
    var under := path + [t.span.id];
    DrawAllWithin(t.kids, |t.kids|, depth + 1, under, if depth == 0 then [] else rails + [!last]);
    var kids := DrawAll(t.kids, |t.kids|, depth + 1, under, if depth == 0 then [] else rails + [!last]);
    forall r | r in Draw(t, depth, path, rails, last)
      ensures path <= r.path && Own(r)[|path|] == t.span.id && r.span.id in Ids(t)
    {
      if r in kids { assert under <= r.path; }
    }
  }

  lemma {:induction false} DrawAllWithin(ts: seq<Tree>, total: nat, depth: nat, path: seq<Id>, rails: seq<bool>)
    requires |path| == depth
    ensures Within(DrawAll(ts, total, depth, path, rails), path, AllIds(ts))
    decreases ts
  {
    if |ts| > 0 {
      DrawAllWithin(ts[..|ts| - 1], total, depth, path, rails);
      DrawWithin(ts[|ts| - 1], depth, path, rails, depth == 0 || |ts| == total);
    }
  }

  /** Rows of trees with other roots do not hang under `path`. */
  lemma Elsewhere(rows: seq<Row>, path: seq<Id>, ids: set<Id>, under: seq<Id>)
    requires forall r :: r in rows ==> path <= r.path && Own(r)[|path|] in ids
    requires |under| > |path| && under[|path|] !in ids
    ensures Count(rows, IsUnder(under)) == 0 && Count(rows, Hangs(under)) == 0
  {
    forall r | r in rows ensures !(under <= r.path) {
      assert |r.path| > |path| ==> Own(r)[|path|] == r.path[|path|];
    }
    CountNone(rows, IsUnder(under));
    CountNone(rows, Hangs(under));
  }

  // ---- counts ---------------------------------------------------------------------------------

  /** `children` is the number of rows right under a row, `below` of all rows
      under it. */
  ghost predicate Counted(rows: seq<Row>, r: Row) {
    Count(rows, IsUnder(Own(r))) == r.children && Count(rows, Hangs(Own(r))) == r.below
  }

  lemma {:induction false} RootsCounted(ts: seq<Tree>, total: nat, depth: nat, path: seq<Id>, rails: seq<bool>)
    requires |path| == depth
    ensures Count(DrawAll(ts, total, depth, path, rails), IsUnder(path)) == |ts|
    decreases ts
  {
    if |ts| > 0 {
      var t, f := ts[|ts| - 1], IsUnder(path);
      var last := depth == 0 || |ts| == total;
      var rows := Draw(t, depth, path, rails, last);
      RootsCounted(ts[..|ts| - 1], total, depth, path, rails);
      CountConcat(DrawAll(ts[..|ts| - 1], total, depth, path, rails), rows, f);
      var under := path + [t.span.id];
      var kids := DrawAll(t.kids, |t.kids|, depth + 1, under, if depth == 0 then [] else rails + [!last]);
      DrawAllWithin(t.kids, |t.kids|, depth + 1, under, if depth == 0 then [] else rails + [!last]);
      assert rows == [rows[0]] + kids;
      CountConcat([rows[0]], kids, f);
      CountOne(rows[0], f);
      forall r | r in kids ensures r.path != path { assert under <= r.path; }
      CountNone(kids, f);
    }
  }

  /** A row is not under anything longer than its own path. */
  lemma NotItself(row: Row, under: seq<Id>)
    requires |under| > |row.path|
    ensures Count([row], IsUnder(under)) == 0 && Count([row], Hangs(under)) == 0
  {
    CountOne(row, IsUnder(under));
    CountOne(row, Hangs(under));
  }

  /** All that is drawn below a tree's root hangs under it. */
  lemma TopCounted(t: Tree, depth: nat, path: seq<Id>, rails: seq<bool>, last: bool)
    requires |path| == depth
    ensures var under, down := path + [t.span.id], if depth == 0 then [] else rails + [!last];
            Counted(DrawAll(t.kids, |t.kids|, depth + 1, under, down), Draw(t, depth, path, rails, last)[0])
  {
    var under, down := path + [t.span.id], if depth == 0 then [] else rails + [!last];
    RootsCounted(t.kids, |t.kids|, depth + 1, under, down);
    DrawnSizes(t.kids, |t.kids|, depth + 1, under, down);
    DrawAllWithin(t.kids, |t.kids|, depth + 1, under, down);
    CountAll(DrawAll(t.kids, |t.kids|, depth + 1, under, down), Hangs(under));
  }

  lemma CountedConcat(a: seq<Row>, b: seq<Row>, r: Row)
    ensures Counted(a, r) && Count(b, IsUnder(Own(r))) == 0 && Count(b, Hangs(Own(r))) == 0 ==> Counted(a + b, r)
    ensures Counted(b, r) && Count(a, IsUnder(Own(r))) == 0 && Count(a, Hangs(Own(r))) == 0 ==> Counted(a + b, r)
  {
    CountConcat(a, b, IsUnder(Own(r)));
    CountConcat(a, b, Hangs(Own(r)));
  }

  lemma {:induction false} DrawCounted(t: Tree, depth: nat, path: seq<Id>, rails: seq<bool>, last: bool, r: Row)
    requires |path| == depth && Once(t) && r in Draw(t, depth, path, rails, last)
    ensures Counted(Draw(t, depth, path, rails, last), r)
    decreases t
  {
    var rows := Draw(t, depth, path, rails, last);
    var under, down := path + [t.span.id], if depth == 0 then [] else rails + [!last];
    var kids := DrawAll(t.kids, |t.kids|, depth + 1, under, down);
    DrawAllWithin(t.kids, |t.kids|, depth + 1, under, down);
    assert rows == [rows[0]] + kids;
    if r in kids {
      DrawAllCounted(t.kids, |t.kids|, depth + 1, under, down, r);
      assert path <= under <= r.path;
    } else {
      TopCounted(t, depth, path, rails, last);
    }
    NotItself(rows[0], Own(r));
    CountedConcat([rows[0]], kids, r);
  }

  lemma {:induction false} DrawAllCounted(ts: seq<Tree>, total: nat, depth: nat, path: seq<Id>, rails: seq<bool>,
                                          r: Row)
    requires |path| == depth && AllOnce(ts) && r in DrawAll(ts, total, depth, path, rails)
    ensures Counted(DrawAll(ts, total, depth, path, rails), r)
    decreases ts
  {
    var init, t := ts[..|ts| - 1], ts[|ts| - 1];
    var last := depth == 0 || |ts| == total;
    var (a, b) := (DrawAll(init, total, depth, path, rails), Draw(t, depth, path, rails, last));
    DrawAllWithin(init, total, depth, path, rails);
    DrawWithin(t, depth, path, rails, last);
    CountedConcat(a, b, r);
    if r in a {
      DrawAllCounted(init, total, depth, path, rails, r);
      Elsewhere(b, path, {t.span.id}, Own(r));
    } else {
      DrawCounted(t, depth, path, rails, last, r);
      Elsewhere(a, path, AllIds(init), Own(r));
    }
  }

  // ---- every span once --------------------------------------------------------------------------

  lemma {:induction false} DrawOnce(t: Tree, depth: nat, path: seq<Id>, rails: seq<bool>, last: bool)
    requires |path| == depth && Once(t)
    ensures NoRepeat(Draw(t, depth, path, rails, last), RowId())
    decreases t
  {
    var rows := Draw(t, depth, path, rails, last);
    var under, down := path + [t.span.id], if depth == 0 then [] else rails + [!last];
    var kids := DrawAll(t.kids, |t.kids|, depth + 1, under, down);
    DrawAllOnce(t.kids, |t.kids|, depth + 1, under, down);
    DrawAllWithin(t.kids, |t.kids|, depth + 1, under, down);
    assert rows == [rows[0]] + kids;
    NoRepeatConcat([rows[0]], kids, RowId());
  }

  lemma {:induction false} DrawAllOnce(ts: seq<Tree>, total: nat, depth: nat, path: seq<Id>, rails: seq<bool>)
    requires |path| == depth && AllOnce(ts)
    ensures NoRepeat(DrawAll(ts, total, depth, path, rails), RowId())
    decreases ts
  {
    if |ts| > 0 {
      var init, t := ts[..|ts| - 1], ts[|ts| - 1];
      var last := depth == 0 || |ts| == total;
      DrawAllOnce(init, total, depth, path, rails);
      DrawOnce(t, depth, path, rails, last);
      DrawAllWithin(init, total, depth, path, rails);
      DrawWithin(t, depth, path, rails, last);
      NoRepeatConcat(DrawAll(init, total, depth, path, rails), Draw(t, depth, path, rails, last), RowId());
    }
  }

  ghost predicate IsDrawn(rows: seq<Row>, id: Id) {
    exists k :: 0 <= k < |rows| && rows[k].span.id == id
  }

  lemma DrawnConcat(a: seq<Row>, b: seq<Row>, id: Id)
    requires IsDrawn(a, id) || IsDrawn(b, id)
    ensures IsDrawn(a + b, id)
  {
    if IsDrawn(a, id) {
      var k :| 0 <= k < |a| && a[k].span.id == id;
      assert (a + b)[k].span.id == id;
    } else {
      var k :| 0 <= k < |b| && b[k].span.id == id;
      assert (a + b)[|a| + k].span.id == id;
    }
  }

  lemma {:induction false} DrawHas(t: Tree, depth: nat, path: seq<Id>, rails: seq<bool>, last: bool, id: Id)
    requires id in Ids(t)
    ensures IsDrawn(Draw(t, depth, path, rails, last), id)
    decreases t
  {
    var rows := Draw(t, depth, path, rails, last);
    var under, down := path + [t.span.id], if depth == 0 then [] else rails + [!last];
    var kids := DrawAll(t.kids, |t.kids|, depth + 1, under, down);
    assert rows == [rows[0]] + kids;
    if id == t.span.id {
      assert rows[0].span.id == id;
    } else {
      DrawAllHas(t.kids, |t.kids|, depth + 1, under, down, id);
      DrawnConcat([rows[0]], kids, id);
    }
  }

  lemma {:induction false} DrawAllHas(ts: seq<Tree>, total: nat, depth: nat, path: seq<Id>, rails: seq<bool>, id: Id)
    requires id in AllIds(ts)
    ensures IsDrawn(DrawAll(ts, total, depth, path, rails), id)
    decreases ts
  {
    var init, t := ts[..|ts| - 1], ts[|ts| - 1];
    var last := depth == 0 || |ts| == total;
    if id in AllIds(init) {
      DrawAllHas(init, total, depth, path, rails, id);
    } else {
      DrawHas(t, depth, path, rails, last, id);
    }
    DrawnConcat(DrawAll(init, total, depth, path, rails), Draw(t, depth, path, rails, last), id);
  }

  // ---- spans under their parents ---------------------------------------------------------------

  /** Each row is of a span of the trace, and under its parent if it is under
      anything. */
  ghost predicate Placed(list: seq<Span>, r: Row) {
    && r.span in list && (r.depth > 0 ==> r.up == r.span.parent)
    && (r.orphan <==> r.depth == 0 && r.span.parent != 0)
  }

  lemma {:induction false} DrawPlaced(list: seq<Span>, t: Tree, depth: nat, path: seq<Id>, rails: seq<bool>, last: bool)
    requires TreeOk(list, t) && (depth > 0 ==> t.span.parent == Up(path))
    ensures forall r :: r in Draw(t, depth, path, rails, last) ==> Placed(list, r)
    decreases t
  {
    DrawAllPlaced(list, t.kids, |t.kids|, depth + 1, path + [t.span.id], if depth == 0 then [] else rails + [!last]);
  }

  lemma {:induction false} DrawAllPlaced(list: seq<Span>, ts: seq<Tree>, total: nat, depth: nat, path: seq<Id>,
                                         rails: seq<bool>)
    requires forall k :: 0 <= k < |ts| ==> TreeOk(list, ts[k]) && (depth > 0 ==> ts[k].span.parent == Up(path))
    ensures forall r :: r in DrawAll(ts, total, depth, path, rails) ==> Placed(list, r)
    decreases ts
  {
    if |ts| > 0 {
      DrawAllPlaced(list, ts[..|ts| - 1], total, depth, path, rails);
      DrawPlaced(list, ts[|ts| - 1], depth, path, rails, depth == 0 || |ts| == total);
    }
  }

  // ---- the rows of a trace ------------------------------------------------------------------------

  /** No span twice, in preorder, with the numbers of spans under each right. */
  ghost predicate RowsOk(rows: seq<Row>) {
    && NoRepeat(rows, RowId()) && Preorder(rows, [])
    && forall r :: r in rows ==> Counted(rows, r)
  }

  /** The rows `SpanRows` draws: every span of the trace exactly once, in
      preorder, under its parent unless it is a root, with the number of spans
      drawn under it. */
  lemma TraceIsDrawn(list: seq<Span>, forest: seq<Tree>)
    requires DistinctIds(list) && AllOnce(forest) && AllIds(forest) == IdSet(list)
    requires forall k :: 0 <= k < |forest| ==> TreeOk(list, forest[k])
    ensures var rows := DrawAll(forest, 0, 0, [], []);
            && RowsOk(rows)
            && (forall r :: r in rows ==> Placed(list, r))
            && (forall s :: s in list ==> exists k :: 0 <= k < |rows| && rows[k].span == s)
  {
    var rows := DrawAll(forest, 0, 0, [], []);
    DrawAllPlaced(list, forest, 0, 0, [], []);
    DrawAllOnce(forest, 0, 0, [], []);
    DrawAllPreorder(forest, 0, 0, [], []);
    forall r | r in rows ensures Counted(rows, r) { DrawAllCounted(forest, 0, 0, [], [], r); }
    forall s | s in list ensures exists k :: 0 <= k < |rows| && rows[k].span == s {
      DrawAllHas(forest, 0, 0, [], [], s.id);
      var k :| 0 <= k < |rows| && rows[k].span.id == s.id;
      assert Placed(list, rows[k]);
      SameSpan(list, rows[k].span, s);
    }
  }

  /** A forest of the trace: every span once, under its parent, in order. */
  ghost predicate ForestOf(list: seq<Span>, forest: seq<Tree>) {
    && AllOnce(forest) && AllIds(forest) == IdSet(list) && RootsRight(list, RootsOf(forest))
    && forall k :: 0 <= k < |forest| ==> TreeOk(list, forest[k])
  }

  /** The ancestors of a row are drawn before it. */
  lemma {:induction false} AncestorsBefore(rows: seq<Row>, i: nat, d: nat) returns (k: nat)
    requires Preorder(rows, []) && i < |rows| && d < rows[i].depth
    ensures k < i && Own(rows[k]) == rows[i].path[..d + 1] && rows[k].children > 0
  {
    assert Level(rows[i], []);
    assert i > 0 && Follows(rows[i - 1], rows[i]);
    if d < rows[i - 1].depth {
      k := AncestorsBefore(rows, i - 1, d);
      assert rows[i].path[..d + 1] == rows[i - 1].path[..d + 1];
    } else {
      k := i - 1;
      assert Level(rows[i - 1], []);
    }
  }

  function LinesOf(rows: seq<Row>): seq<Line> {
    seq(|rows|, k requires 0 <= k < |rows| => Line(rows[k].span, rows[k].up, rows[k].depth == 0))
  }

  /** What is drawn can be searched for the critical path. */
  lemma RowsAreLines(rows: seq<Row>)
    requires RowsOk(rows)
    ensures LinesOk(LinesOf(rows))
  {
    var lines := LinesOf(rows);
    forall i, j | 0 <= i < j < |lines| ensures lines[i].span.id != lines[j].span.id {
      assert RowId()(rows[i]) != RowId()(rows[j]);
    }
    forall i, j | 0 <= i < |lines| && 0 <= j < |lines| && lines[j].up == lines[i].span.id && lines[j].up != 0
      ensures i < j
    {
      assert Level(rows[j], []);
      var k := AncestorsBefore(rows, j, rows[j].depth - 1);
      assert Own(rows[k])[rows[j].depth - 1] == rows[k].span.id;
      assert RowId()(rows[k]) == RowId()(rows[i]);
    }
  }
}
