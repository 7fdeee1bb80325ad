/** The lines of a drawn trace: which row is the last of its siblings, which lines
    of its ancestors go on beside it, and in which order siblings come. */
module TraceLines {
  import opened Lists
  import opened TracePath
  import opened TraceRows
  import opened TraceShape

  // ---- the last sibling ---------------------------------------------------------------------

  ghost predicate NoneLater(rows: seq<Row>, i: nat)
    requires i < |rows|
  {
    forall j :: i < j < |rows| ==> rows[j].path != rows[i].path
  }

  /** A root is always a last one; any other row is if no sibling comes after it. */
  ghost predicate LastAt(rows: seq<Row>, i: nat)
    requires i < |rows|
  {
    rows[i].last <==> rows[i].depth == 0 || NoneLater(rows, i)
  }

  /** Rows below the trees' roots. */
  ghost predicate LastsBelow(rows: seq<Row>, path: seq<Id>) {
    forall i: nat :: i < |rows| && rows[i].path != path ==> LastAt(rows, i)
  }

  /** The roots, while more siblings may follow. */
  ghost predicate LastsHere(rows: seq<Row>, path: seq<Id>, done: bool) {
    forall i: nat :: i < |rows| && rows[i].path == path ==>
      (rows[i].last <==> rows[i].depth == 0 || (done && NoneLater(rows, i)))
  }

  /** A row of another tree has another path, unless both are roots. */
  lemma PathsApart(a: Row, b: Row, path: seq<Id>, ids: set<Id>, id: Id)
    requires path <= a.path && Own(a)[|path|] in ids && path <= b.path && Own(b)[|path|] == id && id !in ids
    ensures a.path == b.path ==> a.path == path
  {
  }

  lemma NoneLaterFront(a: seq<Row>, b: seq<Row>, i: nat)
    requires i < |a| && forall r :: r in b ==> r.path != a[i].path
    ensures NoneLater(a + b, i) <==> NoneLater(a, i)
  {
    var rows := a + b;
    if NoneLater(rows, i) {
      forall j | i < j < |a| ensures a[j].path != a[i].path { assert rows[j] == a[j]; }
    }
    if NoneLater(a, i) {
      forall j | i < j < |rows| ensures rows[j].path != a[i].path {
        assert rows[j] == if j < |a| then a[j] else b[j - |a|];
      }
    }
  }

  lemma NoneLaterBack(a: seq<Row>, b: seq<Row>, k: nat)
    requires k < |b|
    ensures NoneLater(a + b, |a| + k) <==> NoneLater(b, k)
  {
    var rows := a + b;
    if NoneLater(rows, |a| + k) {
      forall j | k < j < |b| ensures b[j].path != b[k].path { assert rows[|a| + j] == b[j]; }
    }
    if NoneLater(b, k) {
      forall j | |a| + k < j < |rows| ensures rows[j].path != b[k].path { assert rows[j] == b[j - |a|]; }
    }
  }

  lemma LastJoinAt(a: seq<Row>, b: seq<Row>, path: seq<Id>, ids: set<Id>, id: Id, i: nat)
    requires LastsBelow(a, path) && LastsBelow(b, path) && id !in ids
    requires forall r :: r in a ==> path <= r.path && Own(r)[|path|] in ids
    requires forall r :: r in b ==> path <= r.path && Own(r)[|path|] == id
    requires i < |a + b| && (a + b)[i].path != path
    ensures LastAt(a + b, i)
  {
    if i < |a| {
      assert (a + b)[i] == a[i] && a[i] in a && LastAt(a, i);
      forall r | r in b ensures r.path != a[i].path { PathsApart(a[i], r, path, ids, id); }
      NoneLaterFront(a, b, i);
    } else {
      var k := i - |a|;
      assert (a + b)[i] == b[k] && LastAt(b, k);
      NoneLaterBack(a, b, k);
    }
  }

  lemma LastsBelowJoin(a: seq<Row>, b: seq<Row>, path: seq<Id>, ids: set<Id>, id: Id)
    requires LastsBelow(a, path) && LastsBelow(b, path) && id !in ids
    requires forall r :: r in a ==> path <= r.path && Own(r)[|path|] in ids
    requires forall r :: r in b ==> path <= r.path && Own(r)[|path|] == id
    ensures LastsBelow(a + b, path)
  {
    forall i: nat | i < |a + b| && (a + b)[i].path != path ensures LastAt(a + b, i) {
      LastJoinAt(a, b, path, ids, id, i);
    }
  }

  /** No row but the first is right under `path`. */
  ghost predicate OneRoot(rows: seq<Row>, path: seq<Id>) {
    forall i :: 0 < i < |rows| ==> rows[i].path != path
  }

  /** One more tree beside those drawn, whose roots are not the last then. */
  lemma LastsHereJoin(a: seq<Row>, b: seq<Row>, path: seq<Id>, done: bool)
    requires LastsHere(a, path, false) && |b| > 0 && b[0].path == path && (b[0].last <==> b[0].depth == 0 || done)
    requires OneRoot(b, path)
    ensures LastsHere(a + b, path, done)
  {
    var rows := a + b;
    forall i: nat | i < |rows| && rows[i].path == path
      ensures rows[i].last <==> rows[i].depth == 0 || (done && NoneLater(rows, i))
    {
      if i < |a| {
        assert rows[i] == a[i] && rows[|a|] == b[0];
      } else {
        assert rows[i] == b[i - |a|];
        NoneLaterBack(a, b, 0);
      }
    }
  }

  /** The roots of a trace are all last ones, whatever follows. */
  lemma RootsAreLast(rows: seq<Row>, path: seq<Id>, done: bool)
    requires LastsHere(rows, path, done) && path == [] && Preorder(rows, path)
    ensures LastsHere(rows, path, false)
  {
  }

  lemma KidLast(kids: seq<Row>, under: seq<Id>, k: nat)
    requires LastsBelow(kids, under) && LastsHere(kids, under, true) && k < |kids|
    ensures LastAt(kids, k)
  {
  }

  lemma TreeLasts(top: Row, kids: seq<Row>, path: seq<Id>, under: seq<Id>)
    requires LastsBelow(kids, under) && LastsHere(kids, under, true) && top.path == path && |under| > |path|
    requires forall r :: r in kids ==> under <= r.path
    ensures LastsBelow([top] + kids, path) && OneRoot([top] + kids, path)
  {
    var rows := [top] + kids;
    forall i: nat | 0 < i < |rows| ensures rows[i].path != path && LastAt(rows, i) {
      assert rows[i] == kids[i - 1] && kids[i - 1] in kids;
      NoneLaterBack([top], kids, i - 1);
      KidLast(kids, under, i - 1);
    }
  }

  lemma {:induction false} DrawLasts(t: Tree, depth: nat, path: seq<Id>, rails: seq<bool>, last: bool)
    requires |path| == depth && Once(t)
    ensures LastsBelow(Draw(t, depth, path, rails, last), path)
    ensures OneRoot(Draw(t, depth, path, rails, last), path)
    decreases t
  {
    var rows, under := Draw(t, depth, path, rails, last), path + [t.span.id];
    var kids := DrawAll(t.kids, |t.kids|, depth + 1, under, RailsUnder(depth, rails, last));
    DrawAllLasts(t.kids, |t.kids|, depth + 1, under, RailsUnder(depth, rails, last));
    DrawAllWithin(t.kids, |t.kids|, depth + 1, under, RailsUnder(depth, rails, last));
    assert rows == [rows[0]] + kids;
    TreeLasts(rows[0], kids, path, under);
  }

  lemma {:induction false} DrawAllLasts(ts: seq<Tree>, total: nat, depth: nat, path: seq<Id>, rails: seq<bool>)
    requires |path| == depth && AllOnce(ts) && (depth == 0 || |ts| <= total)
    ensures LastsBelow(DrawAll(ts, total, depth, path, rails), path)
    ensures LastsHere(DrawAll(ts, total, depth, path, rails), path, |ts| == total)
    decreases ts
  {
    if |ts| > 0 {
      var init, t, last := ts[..|ts| - 1], ts[|ts| - 1], depth == 0 || |ts| == total;
      var (a, b) := (DrawAll(init, total, depth, path, rails), Draw(t, depth, path, rails, last));
      DrawAllLasts(init, total, depth, path, rails);
      DrawLasts(t, depth, path, rails, last);
      DrawAllWithin(init, total, depth, path, rails);
      DrawWithin(t, depth, path, rails, last);
      LastsBelowJoin(a, b, path, AllIds(init), t.span.id);
      if depth == 0 {
        DrawAllPreorder(init, total, depth, path, rails);
        RootsAreLast(a, path, |init| == total);
      }
      LastsHereJoin(a, b, path, |ts| == total);
    }
  }

  // ---- the lines beside a row ------------------------------------------------------------------

  ghost function RailCount(depth: nat): nat {
    if depth <= 1 then 0 else depth - 1
  }

  /** A row has a line for each of its ancestors but the root, which goes on if that
      ancestor is not the last of its siblings. */
  ghost predicate RailsAt(rows: seq<Row>, r: Row) {
    && |r.rails| == RailCount(r.depth) && |r.path| == r.depth
    && forall a :: a in rows && Own(a) <= r.path && 0 < a.depth == |a.path| ==> r.rails[a.depth - 1] == !a.last
  }

  /** And the lines it starts with are those of the trees it is among. */
  ghost predicate Railed(rows: seq<Row>, base: seq<bool>) {
    forall r :: r in rows ==> base <= r.rails && RailsAt(rows, r)
  }

  lemma NoAncestor(a: Row, r: Row, path: seq<Id>)
    requires path <= a.path && path <= r.path && Own(a)[|path|] != Own(r)[|path|]
    ensures !(Own(a) <= r.path)
  {
  }

  lemma RailedJoin(a: seq<Row>, b: seq<Row>, path: seq<Id>, ids: set<Id>, id: Id, base: seq<bool>)
    requires Railed(a, base) && Railed(b, base) && id !in ids
    requires forall r :: r in a ==> path <= r.path && Own(r)[|path|] in ids
    requires forall r :: r in b ==> path <= r.path && Own(r)[|path|] == id
    ensures Railed(a + b, base)
  {
    var rows := a + b;
    forall r, x | r in rows && x in rows && Own(x) <= r.path && 0 < x.depth == |x.path|
      ensures x.depth - 1 < |r.rails| && r.rails[x.depth - 1] == !x.last
    {
      if r in a && x in b { NoAncestor(x, r, path); }
      if r in b && x in a { NoAncestor(x, r, path); }
      if r in a { assert RailsAt(a, r); } else { assert RailsAt(b, r); }
    }
    forall r | r in rows ensures base <= r.rails && RailsAt(rows, r) {
      if r in a { assert RailsAt(a, r); } else { assert RailsAt(b, r); }
    }
  }

  lemma RailsCount(depth: nat, rails: seq<bool>, last: bool)
    requires |rails| == RailCount(depth)
    ensures var down := RailsUnder(depth, rails, last);
            && |down| == RailCount(depth + 1)
            && (depth > 0 ==> rails <= down && down[depth - 1] == !last)
  {
  }

  lemma {:induction false} DrawRailed(t: Tree, depth: nat, path: seq<Id>, rails: seq<bool>, last: bool)
    requires |path| == depth && Once(t) && |rails| == RailCount(depth)
    ensures Railed(Draw(t, depth, path, rails, last), rails)
    decreases t
  {
    var rows, under, down := Draw(t, depth, path, rails, last), path + [t.span.id], RailsUnder(depth, rails, last);
    var kids := DrawAll(t.kids, |t.kids|, depth + 1, under, down);
    RailsCount(depth, rails, last);
    DrawAllRailed(t.kids, |t.kids|, depth + 1, under, down);
    DrawAllWithin(t.kids, |t.kids|, depth + 1, under, down);
    assert rows == [rows[0]] + kids;
    forall r | r in rows ensures rails <= r.rails && RailsAt(rows, r) {
      if r in kids {
        assert RailsAt(kids, r) && down <= r.rails && under <= r.path;
      } else {
        forall x | x in rows ensures !(Own(x) <= r.path) { assert path <= x.path; }
      }
    }
  }

  lemma {:induction false} DrawAllRailed(ts: seq<Tree>, total: nat, depth: nat, path: seq<Id>, rails: seq<bool>)
    requires |path| == depth && AllOnce(ts) && |rails| == RailCount(depth)
    ensures Railed(DrawAll(ts, total, depth, path, rails), rails)
    decreases ts
  {
    if |ts| > 0 {
      var init, t, last := ts[..|ts| - 1], ts[|ts| - 1], depth == 0 || |ts| == total;
      DrawAllRailed(init, total, depth, path, rails);
      DrawRailed(t, depth, path, rails, last);
      DrawAllWithin(init, total, depth, path, rails);
      DrawWithin(t, depth, path, rails, last);
      RailedJoin(DrawAll(init, total, depth, path, rails), Draw(t, depth, path, rails, last), path, AllIds(init),
                 t.span.id, rails);
    }
  }

  // ---- the order of siblings ---------------------------------------------------------------------

  /** Siblings that have a parent come by start, then by id. */
  ghost predicate Ordered(rows: seq<Row>, path: seq<Id>) {
    forall i, j :: 0 <= i < j < |rows| && rows[i].path == rows[j].path != path ==> Before(rows[i].span, rows[j].span)
  }

  ghost predicate InTurn(ts: seq<Tree>, x: Span, y: Span) {
    exists k, l :: 0 <= k < l < |ts| && ts[k].span == x && ts[l].span == y
  }

  /** The roots come in the order of the trees. */
  ghost predicate RootsOrdered(rows: seq<Row>, path: seq<Id>, ts: seq<Tree>) {
    && (forall i :: 0 <= i < |rows| && rows[i].path == path ==> exists k :: 0 <= k < |ts| && ts[k].span == rows[i].span)
    && (forall i, j :: 0 <= i < j < |rows| && rows[i].path == rows[j].path == path ==>
          InTurn(ts, rows[i].span, rows[j].span))
  }

  lemma TurnsAreOrdered(ts: seq<Tree>, x: Span, y: Span)
    requires InOrder(RootsOf(ts)) && InTurn(ts, x, y)
    ensures Before(x, y)
  {
    var k, l :| 0 <= k < l < |ts| && ts[k].span == x && ts[l].span == y;
    assert RootsOf(ts)[k] == x && RootsOf(ts)[l] == y;
  }

  lemma OrderedJoin(a: seq<Row>, b: seq<Row>, path: seq<Id>, ids: set<Id>, id: Id)
    requires Ordered(a, path) && Ordered(b, path) && id !in ids
    requires forall r :: r in a ==> path <= r.path && Own(r)[|path|] in ids
    requires forall r :: r in b ==> path <= r.path && Own(r)[|path|] == id
    ensures Ordered(a + b, path)
  {
    var rows := a + b;
    forall i, j | 0 <= i < j < |rows| && rows[i].path == rows[j].path != path
      ensures Before(rows[i].span, rows[j].span)
    {
      if j < |a| {
        assert rows[i] == a[i] && rows[j] == a[j];
      } else if i >= |a| {
        assert rows[i] == b[i - |a|] && rows[j] == b[j - |a|];
      } else {
        PathsApart(a[i], b[j - |a|], path, ids, id);
        assert false;
      }
    }
  }

  lemma TurnNext(ts: seq<Tree>, x: Span, y: Span)
    requires |ts| > 0
    ensures InTurn(ts[..|ts| - 1], x, y) ==> InTurn(ts, x, y)
    ensures (exists k :: 0 <= k < |ts| - 1 && ts[k].span == x) ==> InTurn(ts, x, ts[|ts| - 1].span)
  {
    var init := ts[..|ts| - 1];
    if InTurn(init, x, y) {
      var k, l :| 0 <= k < l < |init| && init[k].span == x && init[l].span == y;
      assert ts[k].span == x && ts[l].span == y;
    }
  }

  lemma RootsOrderedJoin(a: seq<Row>, b: seq<Row>, path: seq<Id>, ts: seq<Tree>)
    requires |ts| > 0 && RootsOrdered(a, path, ts[..|ts| - 1]) && |b| > 0 && b[0].span == ts[|ts| - 1].span
    requires OneRoot(b, path)
    ensures RootsOrdered(a + b, path, ts)
  {
    var rows, init := a + b, ts[..|ts| - 1];
    forall i | 0 <= i < |rows| && rows[i].path == path ensures exists k :: 0 <= k < |ts| && ts[k].span == rows[i].span {
      if i < |a| {
        var k :| 0 <= k < |init| && init[k].span == a[i].span;
        assert ts[k].span == rows[i].span;
      } else {
        assert rows[i] == b[i - |a|];
      }
    }
    forall i, j | 0 <= i < j < |rows| && rows[i].path == rows[j].path == path
      ensures InTurn(ts, rows[i].span, rows[j].span)
    {
      assert rows[i] == a[i];
      TurnNext(ts, rows[i].span, rows[j].span);
      if j >= |a| {
        assert rows[j] == b[j - |a|];
        var k :| 0 <= k < |init| && init[k].span == a[i].span;
        assert ts[k].span == rows[i].span;
      }
    }
  }

  lemma {:induction false} DrawOrdered(list: seq<Span>, t: Tree, depth: nat, path: seq<Id>, rails: seq<bool>,
                                       last: bool)
    requires |path| == depth && Once(t) && TreeOk(list, t)
    ensures Ordered(Draw(t, depth, path, rails, last), path)
    decreases t
  {
    var rows, under, down := Draw(t, depth, path, rails, last), path + [t.span.id], RailsUnder(depth, rails, last);
    var kids := DrawAll(t.kids, |t.kids|, depth + 1, under, down);
    DrawAllOrdered(list, t.kids, |t.kids|, depth + 1, under, down);
    assert rows == [rows[0]] + kids;
    forall i, j | 0 <= i < j < |rows| && rows[i].path == rows[j].path != path
      ensures Before(rows[i].span, rows[j].span)
    {
      assert rows[i] == kids[i - 1] && rows[j] == kids[j - 1];
      if rows[i].path == under { TurnsAreOrdered(t.kids, rows[i].span, rows[j].span); }
    }
  }

  lemma {:induction false} DrawAllOrdered(list: seq<Span>, ts: seq<Tree>, total: nat, depth: nat, path: seq<Id>,
                                          rails: seq<bool>)
    requires |path| == depth && AllOnce(ts) && forall k :: 0 <= k < |ts| ==> TreeOk(list, ts[k])
    ensures Ordered(DrawAll(ts, total, depth, path, rails), path)
    ensures RootsOrdered(DrawAll(ts, total, depth, path, rails), path, ts)
    decreases ts
  {
    if |ts| > 0 {
      var init, t, last := ts[..|ts| - 1], ts[|ts| - 1], depth == 0 || |ts| == total;
      var (a, b) := (DrawAll(init, total, depth, path, rails), Draw(t, depth, path, rails, last));
      DrawAllOrdered(list, init, total, depth, path, rails);
      DrawOrdered(list, t, depth, path, rails, last);
      DrawLasts(t, depth, path, rails, last);
      DrawAllWithin(init, total, depth, path, rails);
      DrawWithin(t, depth, path, rails, last);
      OrderedJoin(a, b, path, AllIds(init), t.span.id);
      RootsOrderedJoin(a, b, path, ts);
    }
  }

  // ---- the lines of a trace -----------------------------------------------------------------------

  /** What the lines of a drawn trace show, said of the rows alone. */
  ghost predicate LinesDrawn(rows: seq<Row>) {
    && (forall i: nat :: i < |rows| ==> LastAt(rows, i))
    && (forall r :: r in rows ==> RailsAt(rows, r))
    && (forall i, j :: 0 <= i < j < |rows| && rows[i].path == rows[j].path != [] ==> Before(rows[i].span, rows[j].span))
  }

  /** The rows `SpanRows` draws have their lines and their order. */
  lemma TraceHasLines(list: seq<Span>, forest: seq<Tree>)
    requires ForestOf(list, forest)
    ensures LinesDrawn(DrawAll(forest, 0, 0, [], []))
    ensures RootsOrdered(DrawAll(forest, 0, 0, [], []), [], forest)
  {
    var rows := DrawAll(forest, 0, 0, [], []);
    DrawAllPreorder(forest, 0, 0, [], []);
    DrawAllLasts(forest, 0, 0, [], []);
    DrawAllRailed(forest, 0, 0, [], []);
    DrawAllOrdered(list, forest, 0, 0, [], []);
    forall i: nat | i < |rows| ensures LastAt(rows, i) {
      assert Level(rows[i], []);
    }
  }

  /** The rows of a trace, with all that is promised of them. */
  method DrawTrace(list: seq<Span>) returns (rows: seq<Row>)
    requires DistinctIds(list)
    ensures RowsOk(rows) && LinesDrawn(rows)
    ensures forall r :: r in rows ==> Placed(list, r)
    ensures forall s :: s in list ==> exists k :: 0 <= k < |rows| && rows[k].span == s
    ensures exists forest :: ForestOf(list, forest) && RootsOrdered(rows, [], forest)
                             && rows == DrawAll(forest, 0, 0, [], [])
  {
    ghost var forest;
    rows, forest := SpanRows(list);
    TraceIsDrawn(list, forest);
    assert ForestOf(list, forest);
    TraceHasLines(list, forest);
  }
}
