/** Which rows of a trace a reader sees with some spans folded, and which spans
    a trace opens folded. */
module TraceFolds {
  import opened Wrappers
  import opened Sorting
  import opened Lists
  import opened TracePath
  import opened TraceRows
  import opened TraceShape

  /** A row shows if none of its ancestors is folded. */
  predicate Shows(folded: set<Id>, r: Row) {
    forall k :: 0 <= k < |r.path| ==> r.path[k] !in folded
  }

  function ShowsIn(folded: set<Id>): Row -> bool {
    (r: Row) => Shows(folded, r)
  }

  ghost function Shown(rows: seq<Row>, folded: set<Id>): nat {
    Count(rows, ShowsIn(folded))
  }

  // ---- the shown rows ---------------------------------------------------------------------

  /** What the last row says of the rows after it: what hangs below level `d` is
      hidden, and nothing above it is folded; or nothing is hidden. */
  ghost predicate Hiding(folded: set<Id>, p: Row, hideBelow: Option<nat>) {
    match hideBelow
    case Some(d) => d < |Own(p)| && Own(p)[d] in folded && forall k :: 0 <= k < d ==> Own(p)[k] !in folded
    case None => Shows(folded, p) && (p.span.id in folded ==> p.children == 0)
  }

  lemma HidesNext(folded: set<Id>, p: Row, r: Row, hideBelow: Option<nat>)
    requires Follows(p, r) && Hiding(folded, p, hideBelow) && |p.path| == p.depth && |r.path| == r.depth
    ensures Shows(folded, r) <==> hideBelow.None? || r.depth <= hideBelow.value
    ensures !Shows(folded, r) ==> Hiding(folded, r, hideBelow)
  {
    if hideBelow.Some? {
      var d := hideBelow.value;
      if r.depth > d {
        assert r.path[d] == Own(p)[d];
        assert Own(r)[d] == r.path[d];
        forall k | 0 <= k < d ensures Own(r)[k] !in folded { assert Own(r)[k] == Own(p)[k]; }
      } else {
        forall k | 0 <= k < |r.path| ensures r.path[k] !in folded { assert r.path[k] == Own(p)[k]; }
      }
    } else {
      forall k | 0 <= k < |r.path| ensures r.path[k] !in folded { assert r.path[k] == Own(p)[k]; }
    }
  }

  /** Exactly the rows with no folded ancestor, in order. */
  method ShownRows(rows: seq<Row>, folded: set<Id>) returns (out: seq<Row>)
    requires Preorder(rows, [])
    ensures out == Select(rows, ShowsIn(folded))
  {
    out := [];
    var hideBelow: Option<nat> := None;
    var n := 0;
    while n < |rows|
      invariant 0 <= n <= |rows| && out == Select(rows[..n], ShowsIn(folded))
      invariant (n == 0 ==> hideBelow.None?) && (n > 0 ==> Hiding(folded, rows[n - 1], hideBelow))
    {
      var r := rows[n];
      assert Level(r, []);
      assert rows[..n + 1][..n] == rows[..n];
      if n > 0 {
        assert Level(rows[n - 1], []);
        HidesNext(folded, rows[n - 1], r, hideBelow);
      }
      if hideBelow.None? || r.depth <= hideBelow.value {
        hideBelow := if r.span.id in folded && r.children > 0 then Some(r.depth) else None;
        assert Own(r)[r.depth] == r.span.id;
        out := out + [r];
      }
      n := n + 1;
    }
    assert rows[..n] == rows;
  }

  // ---- opening a span ------------------------------------------------------------------------

  /** The spans with something under them. */
  function Parents(rows: seq<Row>): set<Id> {
    set r | r in rows && r.children > 0 :: r.span.id
  }

  /** Spans are folded below folded ones, and only spans with something under
      them are. */
  ghost predicate FoldsOk(rows: seq<Row>, folded: set<Id>) {
    folded <= Parents(rows)
    && forall r :: r in rows && r.children > 0 && r.span.id !in folded ==> Shows(folded, r)
  }

  lemma SameRow(rows: seq<Row>, a: Row, b: Row)
    requires NoRepeat(rows, RowId()) && a in rows && b in rows && a.span.id == b.span.id
    ensures a == b
  {
    var i :| 0 <= i < |rows| && rows[i] == a;
    var j :| 0 <= j < |rows| && rows[j] == b;
    assert RowId()(rows[i]) == RowId()(rows[j]);
  }

  /** The row of an ancestor. */
  lemma Ancestor(rows: seq<Row>, x: Row, d: nat) returns (a: Row)
    requires RowsOk(rows) && x in rows && d < |x.path|
    ensures a in rows && Own(a) == x.path[..d + 1] && a.children > 0 && a.span.id == x.path[d] && a.path == x.path[..d]
  {
    var i :| 0 <= i < |rows| && rows[i] == x;
    assert Level(rows[i], []);
    var k := AncestorsBefore(rows, i, d);
    a := rows[k];
    assert Own(a)[|a.path|] == x.path[..d + 1][|a.path|];
    assert Own(a)[..|a.path|] == a.path;
  }

  lemma AncestorIs(rows: seq<Row>, x: Row, d: nat, r: Row)
    requires RowsOk(rows) && x in rows && r in rows && d < |x.path| && x.path[d] == r.span.id
    ensures x.path[..d + 1] == Own(r) && d == |r.path|
  {
    var a := Ancestor(rows, x, d);
    SameRow(rows, a, r);
  }

  /** Under a folded span, spans are folded. */
  lemma NotDeeper(rows: seq<Row>, folded: set<Id>, r: Row, x: Row)
    requires RowsOk(rows) && FoldsOk(rows, folded) && r in rows && r.span.id in folded && x in rows
    requires Own(r) <= x.path && Shows(folded - {r.span.id}, x)
    ensures x.path == Own(r)
  {
    if |x.path| > |Own(r)| {
      var d := |Own(r)|;
      var c := Ancestor(rows, x, d);
      assert c.path == Own(r);
      assert c.path[|r.path|] == r.span.id;
      if c.span.id == r.span.id { SameRow(rows, c, r); }
    }
  }

  lemma KidsShow(folded: set<Id>, r: Row, x: Row)
    requires r.span.id in folded && Shows(folded, r) && x.path == Own(r)
    ensures Shows(folded - {r.span.id}, x) && !Shows(folded, x)
  {
    assert x.path[|r.path|] == r.span.id;
    forall k | 0 <= k < |x.path| ensures x.path[k] !in folded - {r.span.id} {
      if k < |r.path| { assert x.path[k] == r.path[k]; }
    }
  }

  /** What opening `r` brings to show is what is right under it. */
  lemma OpensKids(rows: seq<Row>, folded: set<Id>, r: Row, x: Row)
    requires RowsOk(rows) && FoldsOk(rows, folded) && r in rows && r.span.id in folded && Shows(folded, r) && x in rows
    ensures Shows(folded - {r.span.id}, x) <==> Shows(folded, x) || x.path == Own(r)
    ensures !(Shows(folded, x) && x.path == Own(r))
  {
    if x.path == Own(r) {
      KidsShow(folded, r, x);
    } else if Shows(folded - {r.span.id}, x) && !Shows(folded, x) {
      var d :| 0 <= d < |x.path| && x.path[d] in folded;
      AncestorIs(rows, x, d, r);
      NotDeeper(rows, folded, r, x);
    }
  }

  lemma OpenKeeps(rows: seq<Row>, folded: set<Id>, r: Row)
    requires NoRepeat(rows, RowId()) && FoldsOk(rows, folded) && r in rows && Shows(folded, r)
    ensures FoldsOk(rows, folded - {r.span.id})
  {
    var less := folded - {r.span.id};
    forall q | q in rows && q.children > 0 && q.span.id !in less ensures Shows(less, q) {
      if q.span.id == r.span.id { SameRow(rows, q, r); }
    }
  }

  /** Opening a folded span that shows brings its children and no more. */
  lemma OpenCounts(rows: seq<Row>, folded: set<Id>, r: Row)
    requires RowsOk(rows) && FoldsOk(rows, folded) && r in rows && r.span.id in folded && Shows(folded, r)
    ensures Shown(rows, folded - {r.span.id}) == Shown(rows, folded) + r.children
  {
    var less := folded - {r.span.id};
    forall x | x in rows
      ensures (ShowsIn(less)(x) <==> ShowsIn(folded)(x) || IsUnder(Own(r))(x))
              && !(ShowsIn(folded)(x) && IsUnder(Own(r))(x))
    {
      OpensKids(rows, folded, r, x);
    }
    CountUnion(rows, ShowsIn(folded), IsUnder(Own(r)), ShowsIn(less));
    assert Counted(rows, r);
  }

  function IsRoot(): Row -> bool {
    (r: Row) => r.depth == 0
  }

  /** With every span folded the roots show. */
  lemma AllFolded(rows: seq<Row>)
    requires RowsOk(rows)
    ensures FoldsOk(rows, Parents(rows)) && Shown(rows, Parents(rows)) == Count(rows, IsRoot())
  {
    forall x | x in rows ensures Shows(Parents(rows), x) == (x.depth == 0) {
      var i :| 0 <= i < |rows| && rows[i] == x;
      assert Level(rows[i], []);
      if x.depth > 0 {
        var a := Ancestor(rows, x, 0);
        assert x.path[0] in Parents(rows);
      }
    }
    CountSame(rows, ShowsIn(Parents(rows)), IsRoot());
  }

  lemma FirstShows(rows: seq<Row>, folded: set<Id>, n: nat, d: nat)
    requires Preorder(rows, []) && n < |rows| && forall j :: 0 <= j < n ==> rows[j].span.id !in folded
    requires d < |rows[n].path|
    ensures rows[n].path[d] !in folded
  {
    assert Level(rows[n], []);
    var j := AncestorsBefore(rows, n, d);
    assert |Own(rows[j])| == d + 1;
    assert Own(rows[j])[d] == rows[n].path[d];
  }

  lemma {:induction false} FirstFold(rows: seq<Row>, folded: set<Id>, n: nat) returns (k: nat)
    requires n < |rows| && rows[n].span.id in folded
    ensures k <= n && rows[k].span.id in folded && forall j :: 0 <= j < k ==> rows[j].span.id !in folded
  {
    if j :| 0 <= j < n && rows[j].span.id in folded {
      k := FirstFold(rows, folded, j);
    } else {
      k := n;
    }
  }

  /** If anything is folded, something folded shows. */
  lemma TopFold(rows: seq<Row>, folded: set<Id>) returns (r: Row)
    requires Preorder(rows, []) && folded <= Parents(rows) && folded != {}
    ensures r in rows && r.span.id in folded && Shows(folded, r)
  {
    var id :| id in folded;
    var x :| x in rows && x.children > 0 && x.span.id == id;
    var k :| 0 <= k < |rows| && rows[k] == x;
    k := FirstFold(rows, folded, k);
    r := rows[k];
    forall d | 0 <= d < |r.path| ensures r.path[d] !in folded {
      FirstShows(rows, folded, k, d);
    }
  }

  // ---- the spans a trace opens folded -----------------------------------------------------------

  /** A failed row has `id` among its ancestors. */
  ghost predicate Fails(rows: seq<Row>, id: Id) {
    exists k :: 0 <= k < |rows| && rows[k].span.error && id in rows[k].path
  }

  /** What stays folded with just the failed spans shown. */
  ghost function ErrorFolds(rows: seq<Row>): set<Id> {
    set id | id in Parents(rows) && !Fails(rows, id)
  }

  /** With those folds a row shows exactly if each of its ancestors is one of a failed
      span: no span is open that no failure needs. */
  lemma ErrorFoldsShow(rows: seq<Row>, r: Row)
    requires RowsOk(rows) && r in rows
    ensures Shows(ErrorFolds(rows), r) <==>
            forall k :: 0 <= k < |r.path| ==> exists q :: q in rows && q.span.error && r.path[k] in q.path
  {
    forall k | 0 <= k < |r.path|
      ensures r.path[k] in Parents(rows)
      ensures Fails(rows, r.path[k]) <==> exists q :: q in rows && q.span.error && r.path[k] in q.path
    {
      var a := Ancestor(rows, r, k);
      if q :| q in rows && q.span.error && r.path[k] in q.path {
        var j :| 0 <= j < |rows| && rows[j] == q;
      }
    }
  }

  function ById(rows: seq<Row>): map<Id, Row> {
    if |rows| == 0 then map[] else ById(rows[..|rows| - 1])[rows[|rows| - 1].span.id := rows[|rows| - 1]]
  }

  lemma {:induction false} FindsRow(rows: seq<Row>, r: Row)
    requires NoRepeat(rows, RowId()) && r in rows
    ensures r.span.id in ById(rows) && ById(rows)[r.span.id] == r
  {
    var init, last := rows[..|rows| - 1], rows[|rows| - 1];
    if r != last {
      var k :| 0 <= k < |rows| && rows[k] == r;
      assert init[k] == r;
      assert RowId()(rows[k]) != RowId()(last);
      FindsRow(init, r);
    }
  }

  /** The running state: the folds are sound and the count is that of the rows
      that show. */
  ghost predicate Folding(rows: seq<Row>, folded: set<Id>, shown: nat) {
    RowsOk(rows) && FoldsOk(rows, folded) && shown == Shown(rows, folded)
  }

  /** Opens `r` if it is folded. */
  method Open(rows: seq<Row>, r: Row, from: set<Id>, count: nat) returns (folded: set<Id>, shown: nat)
    requires Folding(rows, from, count) && r in rows && Shows(from, r)
    ensures Folding(rows, folded, shown) && folded == from - {r.span.id}
  {
    folded, shown := from, count;
    if r.span.id in folded {
      OpenCounts(rows, folded, r);
      OpenKeeps(rows, folded, r);
      folded := folded - {r.span.id};
      shown := shown + r.children;
    }
  }

  /** The first `d` ancestors. */
  ghost function Above(path: seq<Id>, d: nat): set<Id>
    requires d <= |path|
  {
    set k | 0 <= k < d :: path[k]
  }

  lemma AboveNext(path: seq<Id>, d: nat)
    requires d < |path|
    ensures Above(path, d + 1) == Above(path, d) + {path[d]}
    ensures forall k :: 0 <= k < d ==> path[k] in Above(path, d)
  {
  }

  /** The next ancestor down is found, and shows once those above it are open. */
  lemma NextUp(rows: seq<Row>, folded: set<Id>, r: Row, from: set<Id>, d: nat)
    requires RowsOk(rows) && r in rows && d < |r.path| && folded == from - Above(r.path, d)
    ensures r.path[d] in ById(rows)
    ensures var up := ById(rows)[r.path[d]]; up in rows && Shows(folded, up)
    ensures folded - {ById(rows)[r.path[d]].span.id} == from - Above(r.path, d + 1)
  {
    AboveNext(r.path, d);
    var a := Ancestor(rows, r, d);
    FindsRow(rows, a);
  }

  lemma AboveAll(path: seq<Id>, id: Id)
    ensures id in Above(path, |path|) <==> id in path
  {
  }

  /** Opens the ancestors of a failed row, from the root down. */
  method OpenPath(rows: seq<Row>, r: Row, from: set<Id>, count: nat) returns (folded: set<Id>, shown: nat)
    requires Folding(rows, from, count) && r in rows
    ensures Folding(rows, folded, shown) && folded == from - Above(r.path, |r.path|)
  {
    folded, shown := from, count;
    var byId := ById(rows);
    var d := 0;
    while d < |r.path|
      invariant 0 <= d <= |r.path| && Folding(rows, folded, shown)
      invariant folded == from - Above(r.path, d)
    {
      NextUp(rows, folded, r, from, d);
      folded, shown := Open(rows, byId[r.path[d]], folded, shown);
      d := d + 1;
    }
  }

  /** What is folded once the failed spans of the first `n` rows show. */
  ghost function FoldsAfter(rows: seq<Row>, n: nat): set<Id>
    requires n <= |rows|
  {
    set id | id in Parents(rows) && !Fails(rows[..n], id)
  }

  lemma FailsLast(rows: seq<Row>, n: nat, id: Id)
    requires n < |rows|
    ensures Fails(rows[..n + 1], id) <==> Fails(rows[..n], id) || (rows[n].span.error && id in rows[n].path)
  {
    var all, some := rows[..n + 1], rows[..n];
    if Fails(all, id) {
      var k :| 0 <= k < |all| && all[k].span.error && id in all[k].path;
      if k < n { assert some[k] == all[k]; }
    }
    if Fails(some, id) {
      var k :| 0 <= k < |some| && some[k].span.error && id in some[k].path;
      assert all[k] == some[k];
    }
    assert all[n] == rows[n];
  }

  lemma FoldsNext(rows: seq<Row>, n: nat)
    requires n < |rows|
    ensures FoldsAfter(rows, n + 1) ==
            FoldsAfter(rows, n) - (if rows[n].span.error then Above(rows[n].path, |rows[n].path|) else {})
  {
    forall id ensures id in FoldsAfter(rows, n + 1) <==>
                      id in FoldsAfter(rows, n) && !(rows[n].span.error && id in Above(rows[n].path, |rows[n].path|)) {
      FailsLast(rows, n, id);
      AboveAll(rows[n].path, id);
    }
  }

  lemma FoldsAtEnds(rows: seq<Row>)
    ensures FoldsAfter(rows, 0) == Parents(rows) && FoldsAfter(rows, |rows|) == ErrorFolds(rows)
  {
    assert rows[..|rows|] == rows;
  }

  /** Opens the path to the `n`-th row if it failed. */
  method OpenFailed(rows: seq<Row>, n: nat, from: set<Id>, count: nat) returns (folded: set<Id>, shown: nat)
    requires n < |rows| && Folding(rows, from, count) && from == FoldsAfter(rows, n)
    ensures Folding(rows, folded, shown) && folded == FoldsAfter(rows, n + 1)
  {
    FoldsNext(rows, n);
    folded, shown := from, count;
    if rows[n].span.error {
      folded, shown := OpenPath(rows, rows[n], from, count);
    }
  }

  method OpenErrors(rows: seq<Row>) returns (folded: set<Id>, shown: nat)
    requires RowsOk(rows)
    ensures Folding(rows, folded, shown) && folded == ErrorFolds(rows)
  {
    folded, shown := Parents(rows), |Select(rows, IsRoot())|;
    AllFolded(rows);
    CountFits(rows, IsRoot());
    FoldsAtEnds(rows);
    var n := 0;
    while n < |rows|
      invariant 0 <= n <= |rows| && Folding(rows, folded, shown) && folded == FoldsAfter(rows, n)
    {
      folded, shown := OpenFailed(rows, n, folded, shown);
      n := n + 1;
    }
  }

  /** A folded span that shows and whose children fit the budget. */
  ghost predicate Fits(rows: seq<Row>, folded: set<Id>, budget: nat, r: Row) {
    r in rows && Shows(folded, r) && r.span.id in folded && Shown(rows, folded) + r.children <= budget
  }

  /** Of those, one that took longest. */
  ghost predicate LongestFit(rows: seq<Row>, folded: set<Id>, budget: nat, r: Row) {
    Fits(rows, folded, budget, r)
    && forall q :: q in rows && Fits(rows, folded, budget, q) ==> q.span.duration <= r.span.duration
  }

  function FitsIn(folded: set<Id>, shown: nat, budget: nat): Row -> bool {
    (r: Row) => r.span.id in folded && shown + r.children <= budget
  }

  lemma Candidates(rows: seq<Row>, folded: set<Id>, shown: nat, budget: nat)
    requires shown == Shown(rows, folded)
    ensures var found := Select(Select(rows, ShowsIn(folded)), FitsIn(folded, shown, budget));
            forall r :: r in found <==> Fits(rows, folded, budget, r)
  {
    Selects(rows, ShowsIn(folded));
    Selects(Select(rows, ShowsIn(folded)), FitsIn(folded, shown, budget));
  }

  method NextOpen(rows: seq<Row>, folded: set<Id>, shown: nat, budget: nat) returns (next: Option<Row>)
    requires Preorder(rows, []) && shown == Shown(rows, folded)
    ensures next.Some? ==> LongestFit(rows, folded, budget, next.value)
    ensures next.None? ==> forall r :: r in rows ==> !Fits(rows, folded, budget, r)
  {
    var visible := ShownRows(rows, folded);
    var found := Select(visible, FitsIn(folded, shown, budget));
    Candidates(rows, folded, shown, budget);
    var longest := (r: Row) => -r.span.duration;
    var order := SortByKey(found, longest);
    Sorts(found, longest);
    if |order| == 0 {
      return None;
    }
    assert order[0] in order;
    forall q | q in rows && Fits(rows, folded, budget, q) ensures q.span.duration <= order[0].span.duration {
      assert q in order;
      var k :| 0 <= k < |order| && order[k] == q;
      assert k > 0 ==> longest(order[0]) <= longest(order[k]);
    }
    return Some(order[0]);
  }

  function IdsOf(rows: seq<Row>): set<Id> {
    set r | r in rows :: r.span.id
  }

  lemma OpenedNext(rows: seq<Row>, budget: nat, openings: seq<Row>, r: Row)
    requires forall k :: 0 <= k < |openings| ==>
               LongestFit(rows, ErrorFolds(rows) - IdsOf(openings[..k]), budget, openings[k])
    requires LongestFit(rows, ErrorFolds(rows) - IdsOf(openings), budget, r)
    ensures IdsOf(openings + [r]) == IdsOf(openings) + {r.span.id}
    ensures var all := openings + [r];
            forall k :: 0 <= k < |all| ==>
              LongestFit(rows, ErrorFolds(rows) - IdsOf(all[..k]), budget, all[k])
  {
    var all := openings + [r];
    assert r in all;
    forall k | 0 <= k < |all| ensures LongestFit(rows, ErrorFolds(rows) - IdsOf(all[..k]), budget, all[k]) {
      assert all[..k] == openings[..k];
      assert openings[..|openings|] == openings;
    }
  }

  lemma ErrorsShow(rows: seq<Row>, folded: set<Id>)
    requires folded <= ErrorFolds(rows)
    ensures forall r :: r in rows && r.span.error ==> Shows(folded, r)
  {
    forall r | r in rows && r.span.error ensures Shows(folded, r) {
      var n :| 0 <= n < |rows| && rows[n] == r;
      forall k | 0 <= k < |r.path| ensures r.path[k] !in folded {
        assert r.path[k] in rows[n].path;
        assert Fails(rows, r.path[k]);
      }
    }
  }

  lemma NothingFolded(rows: seq<Row>, folded: set<Id>, budget: nat)
    requires RowsOk(rows) && FoldsOk(rows, folded) && |rows| <= budget
    requires forall r :: r in rows ==> !Fits(rows, folded, budget, r)
    ensures folded == {}
  {
    if folded != {} {
      var r := TopFold(rows, folded);
      OpenCounts(rows, folded, r);
      CountFits(rows, ShowsIn(folded - {r.span.id}));
    }
  }

  /** The folds a trace opens with: every failed span shows; after that, spans
      that took longest open first while the rows stay within the budget, until
      none fits; and a trace within the budget opens whole. */
  method FirstFolds(rows: seq<Row>, budget: nat) returns (folded: set<Id>, ghost openings: seq<Row>)
    requires RowsOk(rows)
    ensures forall r :: r in rows && r.span.error ==> Shows(folded, r)
    ensures Shown(rows, folded) <= Max(budget, Shown(rows, ErrorFolds(rows)))
    ensures |rows| <= budget ==> folded == {}
    ensures forall r :: r in rows ==> !Fits(rows, folded, budget, r)
    ensures folded == ErrorFolds(rows) - IdsOf(openings)
    ensures forall k :: 0 <= k < |openings| ==>
              LongestFit(rows, ErrorFolds(rows) - IdsOf(openings[..k]), budget, openings[k])
  {
    var shown: nat;
    folded, shown := OpenErrors(rows);
    openings := [];
    while true
      invariant Folding(rows, folded, shown) && shown <= Max(budget, Shown(rows, ErrorFolds(rows)))
      invariant folded == ErrorFolds(rows) - IdsOf(openings)
      invariant forall k :: 0 <= k < |openings| ==>
                  LongestFit(rows, ErrorFolds(rows) - IdsOf(openings[..k]), budget, openings[k])
      decreases folded
    {
      var next := NextOpen(rows, folded, shown, budget);
      if next.None? { break; }
      var r := next.value;
      OpenedNext(rows, budget, openings, r);
      OpenCounts(rows, folded, r);
      folded, shown := Open(rows, r, folded, shown);
      openings := openings + [r];
    }
    ErrorsShow(rows, folded);
    if |rows| <= budget { NothingFolded(rows, folded, budget); }
  }
}
