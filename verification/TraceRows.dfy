/** The spans of a trace as the waterfall draws them: every span once, each
    under its parent, whatever the parents say. */
module TraceRows {
  import opened Sorting
  import opened Lists
  import opened TracePath

  /** A drawn row: its span and level, how many spans hang under it directly and
      in all, its ancestors from the root, and what the tree's lines need. */
  datatype Row = Row(span: Span, depth: nat, children: nat, orphan: bool, up: Id, path: seq<Id>,
                     last: bool, rails: seq<bool>, below: nat)

  /** A span with what is drawn under it. */
  datatype Tree = Tree(span: Span, kids: seq<Tree>)

  function IdOf(): Span -> nat {
    (s: Span) => s.id
  }

  ghost predicate DistinctIds(list: seq<Span>) {
    NoRepeat(list, IdOf())
  }

  predicate HasId(list: seq<Span>, id: Id) {
    exists k :: 0 <= k < |list| && list[k].id == id
  }

  /** The parent of `s` is another span of the trace. */
  predicate IsKid(list: seq<Span>, s: Span) {
    s.parent != 0 && HasId(list, s.parent) && s.parent != s.id
  }

  /** The order spans are drawn in: by start, then by id. */
  ghost predicate InOrder(s: seq<Span>) {
    forall i, j :: 0 <= i < j < |s| ==>
      s[i].start < s[j].start || (s[i].start == s[j].start && s[i].id < s[j].id)
  }

  function ByStart(s: seq<Span>): (r: seq<Span>) {
    SortByKey(SortByKey(s, (x: Span) => x.id), (x: Span) => x.start)
  }

  /** An id is of one span. */
  lemma SameSpan(list: seq<Span>, a: Span, b: Span)
    requires DistinctIds(list) && a in list && b in list && a.id == b.id
    ensures a == b
  {
    var i :| 0 <= i < |list| && list[i] == a;
    var j :| 0 <= j < |list| && list[j] == b;
    assert IdOf()(list[i]) == IdOf()(list[j]);
  }

  lemma OrderedAreDistinct(r: seq<Span>, s: seq<Span>)
    requires DistinctIds(s) && multiset(r) == multiset(s) && InOrder(r)
    ensures DistinctIds(r)
  {
    SameElements(r, s);
    forall i, j | 0 <= i < j < |r| ensures IdOf()(r[i]) != IdOf()(r[j]) {
      if r[i].id == r[j].id {
        assert r[i] in s && r[j] in s;
        SameSpan(s, r[i], r[j]);
      }
    }
  }

  lemma ByStartSorts(s: seq<Span>)
    requires DistinctIds(s)
    ensures InOrder(ByStart(s)) && multiset(ByStart(s)) == multiset(s)
    ensures forall x :: x in ByStart(s) <==> x in s
    ensures DistinctIds(ByStart(s)) && |ByStart(s)| == |s|
  {
    var id, start := (x: Span) => x.id, (x: Span) => x.start;
    assert DistinctKeys(s, id) by {
      forall i, j | 0 <= i < j < |s| ensures id(s[i]) != id(s[j]) { assert IdOf()(s[i]) != IdOf()(s[j]); }
    }
    var byId := SortByKey(s, id);
    SortsStrictly(s, id);
    Sorts(s, id);
    SortIsStable(byId, start, id);
    Sorts(byId, start);
    var r := ByStart(s);
    forall i, j | 0 <= i < j < |r|
      ensures r[i].start < r[j].start || (r[i].start == r[j].start && r[i].id < r[j].id)
    {
      assert start(r[i]) <= start(r[j]) && (start(r[i]) == start(r[j]) ==> id(r[i]) < id(r[j]));
    }
    OrderedAreDistinct(r, s);
  }

  // ---- what a tree looks like drawn ----------------------------------------------------

  ghost function Size(t: Tree): nat {
    1 + Sizes(t.kids)
  }

  ghost function Sizes(ts: seq<Tree>): nat {
    if |ts| == 0 then 0 else Sizes(ts[..|ts| - 1]) + Size(ts[|ts| - 1])
  }

  function Up(path: seq<Id>): Id {
    if |path| > 0 then path[|path| - 1] else 0
  }

  /** A tree top to bottom: the span, then what hangs under it. */
  ghost function Draw(t: Tree, depth: nat, path: seq<Id>, rails: seq<bool>, last: bool): seq<Row> {
    [Row(t.span, depth, |t.kids|, depth == 0 && t.span.parent != 0, Up(path), path, last, rails, Sizes(t.kids))]
    + DrawAll(t.kids, |t.kids|, depth + 1, path + [t.span.id], if depth == 0 then [] else rails + [!last])
  }

  /** Trees side by side, of `total` in all; a root is always a last one. */
  ghost function DrawAll(ts: seq<Tree>, total: nat, depth: nat, path: seq<Id>, rails: seq<bool>): seq<Row> {
    if |ts| == 0 then []
    else
      DrawAll(ts[..|ts| - 1], total, depth, path, rails)
      + Draw(ts[|ts| - 1], depth, path, rails, depth == 0 || |ts| == total)
  }

  lemma {:induction false} DrawnSize(t: Tree, depth: nat, path: seq<Id>, rails: seq<bool>, last: bool)
    ensures |Draw(t, depth, path, rails, last)| == Size(t)
    decreases t
  {
    DrawnSizes(t.kids, |t.kids|, depth + 1, path + [t.span.id], if depth == 0 then [] else rails + [!last]);
  }

  lemma {:induction false} DrawnSizes(ts: seq<Tree>, total: nat, depth: nat, path: seq<Id>, rails: seq<bool>)
    ensures |DrawAll(ts, total, depth, path, rails)| == Sizes(ts)
    decreases ts
  {
    if |ts| > 0 {
      DrawnSizes(ts[..|ts| - 1], total, depth, path, rails);
      DrawnSize(ts[|ts| - 1], depth, path, rails, depth == 0 || |ts| == total);
    }
  }

  // ---- the spans of a tree ----------------------------------------------------------------

  ghost function Ids(t: Tree): set<Id> {
    {t.span.id} + AllIds(t.kids)
  }

  ghost function AllIds(ts: seq<Tree>): set<Id> {
    if |ts| == 0 then {} else AllIds(ts[..|ts| - 1]) + Ids(ts[|ts| - 1])
  }

  /** No span is in a tree twice. */
  ghost predicate Once(t: Tree) {
    t.span.id !in AllIds(t.kids) && AllOnce(t.kids)
  }

  ghost predicate AllOnce(ts: seq<Tree>) {
    |ts| > 0 ==>
      AllOnce(ts[..|ts| - 1]) && Once(ts[|ts| - 1]) && AllIds(ts[..|ts| - 1]) !! Ids(ts[|ts| - 1])
  }

  ghost function RootsOf(ts: seq<Tree>): seq<Span> {
    seq(|ts|, k requires 0 <= k < |ts| => ts[k].span)
  }

  /** Every span hangs under its parent, with its siblings in order. */
  ghost predicate TreeOk(list: seq<Span>, t: Tree) {
    && t.span in list
    && (forall k :: 0 <= k < |t.kids| ==> t.kids[k].span.parent == t.span.id && IsKid(list, t.kids[k].span))
    && InOrder(RootsOf(t.kids))
    && (forall k :: 0 <= k < |t.kids| ==> TreeOk(list, t.kids[k]))
  }

  function IdSet(s: seq<Span>): set<Id> {
    set x | x in s :: x.id
  }

  lemma IdSetLast(s: seq<Span>, n: nat)
    requires n < |s|
    ensures IdSet(s[..n + 1]) == IdSet(s[..n]) + {s[n].id}
  {
    assert s[..n + 1] == s[..n] + [s[n]];
    assert forall x :: x in s[..n + 1] <==> x in s[..n] || x == s[n];
    assert s[n] in s[..n + 1];
  }

  lemma NotEarlier(s: seq<Span>, n: nat)
    requires DistinctIds(s) && n < |s|
    ensures s[n].id !in IdSet(s[..n])
  {
    forall x | x in s[..n] ensures x.id != s[n].id {
      var k :| 0 <= k < n && s[..n][k] == x;
      assert IdOf()(s[k]) != IdOf()(s[n]);
    }
  }

  // ---- drawing ---------------------------------------------------------------------------------

  /** The children of the spans drawn are seen. */
  ghost predicate Closed(list: seq<Span>, ids: set<Id>, seen: set<Id>) {
    forall c :: c in list && IsKid(list, c) && c.parent in ids ==> c.id in seen
  }

  ghost predicate TreesOf(list: seq<Span>, roots: seq<Span>, ts: seq<Tree>) {
    |ts| <= |roots| && forall k :: 0 <= k < |ts| ==> ts[k].span == roots[k] && TreeOk(list, ts[k])
  }

  /** The trees of the first of `roots` are drawn, and `seen` has grown from
      `before`, which has the roots in it, by exactly their spans: none of them
      was there before but the roots, and all their children are there now. */
  ghost predicate Drawn(list: seq<Span>, before: set<Id>, roots: seq<Span>, ts: seq<Tree>, seen: set<Id>) {
    && TreesOf(list, roots, ts) && seen == before + AllIds(ts) && AllOnce(ts)
    && AllIds(ts) * before <= IdSet(roots[..|ts|])
    && Closed(list, AllIds(ts), seen)
  }

  lemma AllIdsLast(ts: seq<Tree>, t: Tree)
    ensures AllIds(ts + [t]) == AllIds(ts) + Ids(t)
    ensures AllOnce(ts + [t]) <==> AllOnce(ts) && Once(t) && AllIds(ts) !! Ids(t)
  {
    assert (ts + [t])[..|ts + [t]| - 1] == ts;
  }

  lemma IdsOfOne(t: Tree)
    ensures AllIds([t]) == Ids(t) && (AllOnce([t]) <==> Once(t))
  {
    assert [t][..0] == [];
  }

  lemma SetsNext(before: set<Id>, drawn: set<Id>, rs: set<Id>, r: Id, ids: set<Id>, seen: set<Id>, seen': set<Id>)
    requires seen == before + drawn && drawn * before <= rs && r in before && r !in rs
    requires seen' == seen + ids && ids * seen <= {r}
    ensures seen' == before + (drawn + ids) && drawn !! ids && (drawn + ids) * before <= rs + {r}
  {
    assert r !in drawn;
    forall x | x in ids && x in seen ensures x == r { assert x in ids * seen; }
    assert before + drawn + ids == before + (drawn + ids);
  }

  lemma ClosedJoin(list: seq<Span>, a: set<Id>, b: set<Id>, seen: set<Id>, seen': set<Id>)
    requires Closed(list, a, seen) && Closed(list, b, seen') && seen <= seen'
    ensures Closed(list, a + b, seen')
  {
  }

  /** What drawing one more tree says of it. */
  lemma NextTree(list: seq<Span>, roots: seq<Span>, ts: seq<Tree>, seen: set<Id>, t: Tree, seen': set<Id>)
    requires TreesOf(list, roots, ts) && |ts| < |roots| && Drawn(list, seen, [roots[|ts|]], [t], seen')
    ensures TreesOf(list, roots, ts + [t]) && Once(t) && seen' == seen + Ids(t)
    ensures Ids(t) * seen <= {roots[|ts|].id} && Closed(list, Ids(t), seen')
  {
    var r := roots[|ts|];
    IdsOfOne(t);
    assert [r][..1] == [r];
    assert IdSet([r]) == {r.id};
  }

  lemma DrawnNext(list: seq<Span>, before: set<Id>, roots: seq<Span>, ts: seq<Tree>, seen: set<Id>, t: Tree,
                  seen': set<Id>)
    requires Drawn(list, before, roots, ts, seen) && |ts| < |roots| && IdSet(roots) <= before && DistinctIds(roots)
    requires Drawn(list, seen, [roots[|ts|]], [t], seen')
    ensures Drawn(list, before, roots, ts + [t], seen')
  {
    var r := roots[|ts|];
    NextTree(list, roots, ts, seen, t, seen');
    AllIdsLast(ts, t);
    IdSetLast(roots, |ts|);
    NotEarlier(roots, |ts|);
    assert r.id in IdSet(roots) by { assert r in roots; }
    SetsNext(before, AllIds(ts), IdSet(roots[..|ts|]), r.id, Ids(t), seen, seen');
    ClosedJoin(list, AllIds(ts), Ids(t), seen, seen');
  }

  lemma KidsInOrder(list: seq<Span>, s: Span, kids: seq<Span>, ts: seq<Tree>)
    requires s in list && |ts| == |kids| && InOrder(kids) && TreesOf(list, kids, ts)
    requires forall c :: c in kids ==> IsKid(list, c) && c.parent == s.id
    ensures TreeOk(list, Tree(s, ts))
  {
    assert RootsOf(ts) == kids;
    forall k | 0 <= k < |ts| ensures ts[k].span.parent == s.id && IsKid(list, ts[k].span) { assert kids[k] in kids; }
  }

  lemma {:induction false} RootsAreDrawn(kids: seq<Span>, ts: seq<Tree>)
    requires |ts| <= |kids| && (forall k :: 0 <= k < |ts| ==> ts[k].span == kids[k])
    ensures IdSet(kids[..|ts|]) <= AllIds(ts)
  {
    if |ts| > 0 {
      var n := |ts| - 1;
      RootsAreDrawn(kids, ts[..n]);
      IdSetLast(kids, n);
    }
  }

  /** A span with its children drawn is a tree drawn. */
  lemma DrawnTree(list: seq<Span>, seen: set<Id>, s: Span, kids: seq<Span>, ts: seq<Tree>, seen': set<Id>)
    requires s in list && |ts| == |kids| && InOrder(kids)
    requires forall c :: c in kids ==> c in list && IsKid(list, c) && c.parent == s.id
    requires IdSet(kids) !! seen && s.id in seen
    requires Closed(list, {s.id}, seen + IdSet(kids))
    requires Drawn(list, seen + IdSet(kids), kids, ts, seen')
    ensures Drawn(list, seen, [s], [Tree(s, ts)], seen')
  {
    var t := Tree(s, ts);
    IdsOfOne(t);
    assert kids[..|ts|] == kids;
    RootsAreDrawn(kids, ts);
    assert [s][..1] == [s];
    assert IdSet([s]) == {s.id};
    KidsInOrder(list, s, kids, ts);
  }

  function KidsAt(kids: map<Id, seq<Span>>, id: Id): seq<Span> {
    if id in kids then kids[id] else []
  }

  function KidOf(list: seq<Span>, id: Id): Span -> bool {
    (s: Span) => IsKid(list, s) && s.parent == id
  }

  /** The children of each span, and the spans that are nobody's. */
  ghost predicate KidsRight(list: seq<Span>, kids: map<Id, seq<Span>>) {
    forall id :: KidsAt(kids, id) == Select(list, KidOf(list, id))
  }

  function NoKid(list: seq<Span>): Span -> bool {
    (s: Span) => !IsKid(list, s)
  }

  /** The children of `s` not drawn yet, in order. */
  function NewKids(kids: map<Id, seq<Span>>, s: Span, seen: set<Id>): seq<Span> {
    ByStart(Select(KidsAt(kids, s.id), (c: Span) => c.id !in seen))
  }

  lemma KidsOf(list: seq<Span>, kids: map<Id, seq<Span>>, id: Id)
    requires DistinctIds(list) && KidsRight(list, kids)
    ensures var mine := KidsAt(kids, id);
            DistinctIds(mine) && forall c :: c in mine <==> c in list && IsKid(list, c) && c.parent == id
  {
    var f := KidOf(list, id);
    assert KidsAt(kids, id) == Select(list, f);
    SelectNoRepeat(list, f, IdOf());
    Selects(list, f);
  }

  lemma NewKidsRight(list: seq<Span>, kids: map<Id, seq<Span>>, s: Span, seen: set<Id>)
    requires DistinctIds(list) && KidsRight(list, kids) && s.id in seen
    ensures var undrawn := NewKids(kids, s, seen);
            && InOrder(undrawn) && DistinctIds(undrawn)
            && (forall c :: c in undrawn ==> c in list && IsKid(list, c) && c.parent == s.id)
            && IdSet(undrawn) !! seen && Closed(list, {s.id}, seen + IdSet(undrawn))
            && IdSet(undrawn) <= IdSet(list)
  {
    KidsOf(list, kids, s.id);
    var mine := KidsAt(kids, s.id);
    var g := (c: Span) => c.id !in seen;
    SelectNoRepeat(mine, g, IdOf());
    Selects(mine, g);
    ByStartSorts(Select(mine, g));
  }

  function NewRow(s: Span, children: nat, depth: nat, path: seq<Id>, rails: seq<bool>, last: bool): Row {
    Row(s, depth, children, depth == 0 && s.parent != 0, Up(path), path, last, rails, 0)
  }

  /** How the lines run under a row. */
  function RailsUnder(depth: nat, rails: seq<bool>, last: bool): seq<bool> {
    if depth == 0 then [] else rails + [!last]
  }

  lemma DrawNext(drawn: seq<Row>, ts: seq<Tree>, t: Tree, total: nat, depth: nat, path: seq<Id>, rails: seq<bool>)
    ensures drawn + DrawAll(ts + [t], total, depth, path, rails) ==
            drawn + DrawAll(ts, total, depth, path, rails)
            + Draw(t, depth, path, rails, depth == 0 || |ts| + 1 == total)
  {
    assert (ts + [t])[..|ts + [t]| - 1] == ts;
    var a := DrawAll(ts, total, depth, path, rails);
    var b := Draw(t, depth, path, rails, depth == 0 || |ts| + 1 == total);
    assert drawn + a + b == drawn + (a + b);
  }

  /** The row drawn just before the `at`-th knows how many follow it. */
  function WithBelow(out: seq<Row>, at: nat): seq<Row>
    requires 0 < at <= |out|
  {
    out[at - 1 := out[at - 1].(below := |out| - at)]
  }

  lemma BelowIsSet(before: seq<Row>, row: Row, rows: seq<Row>)
    ensures WithBelow(before + [row] + rows, |before| + 1) == before + ([row.(below := |rows|)] + rows)
  {
    var out := before + [row] + rows;
    assert out[|before|] == row && |out| - (|before| + 1) == |rows|;
  }

  lemma DrawWhole(before: seq<Row>, out: seq<Row>, s: Span, n: nat, ts: seq<Tree>, depth: nat, path: seq<Id>,
                  rails: seq<bool>, last: bool)
    requires n == |ts|
    requires out == before + [NewRow(s, n, depth, path, rails, last)]
                    + DrawAll(ts, |ts|, depth + 1, path + [s.id], RailsUnder(depth, rails, last))
    ensures |before| < |out| && WithBelow(out, |before| + 1) == before + Draw(Tree(s, ts), depth, path, rails, last)
  {
    var row := NewRow(s, |ts|, depth, path, rails, last);
    var rows := DrawAll(ts, |ts|, depth + 1, path + [s.id], RailsUnder(depth, rails, last));
    DrawnSizes(ts, |ts|, depth + 1, path + [s.id], RailsUnder(depth, rails, last));
    assert Draw(Tree(s, ts), depth, path, rails, last) == [row.(below := |rows|)] + rows;
    BelowIsSet(before, row, rows);
  }

  lemma DrawnNone(list: seq<Span>, before: set<Id>, roots: seq<Span>)
    ensures Drawn(list, before, roots, [], before)
  {
  }

  lemma MoreSeen(list: seq<Span>, marked: set<Id>, start: set<Id>, seen: set<Id>, c: Span)
    requires marked <= start <= seen && c in list && c.id in start && c.id !in marked
    ensures IdSet(list) - seen < IdSet(list) - marked && seen + {c.id} == seen
  {
    assert c.id in IdSet(list) - marked;
  }

  /** Draws `s` with all that hangs under it and is not drawn yet. */
  method Walk(list: seq<Span>, kids: map<Id, seq<Span>>, s: Span, depth: nat, path: seq<Id>, rails: seq<bool>,
              last: bool, before: seq<Row>, marked: set<Id>)
    returns (out: seq<Row>, seen: set<Id>, ghost tree: Tree)
    requires DistinctIds(list) && KidsRight(list, kids) && s in list
    ensures tree.span == s && out == before + Draw(tree, depth, path, rails, last)
    ensures Drawn(list, marked + {s.id}, [s], [tree], seen)
    decreases IdSet(list) - marked, 1
  {
    seen := marked + {s.id};
    var children := NewKids(kids, s, seen);
    NewKidsRight(list, kids, s, seen);
    var row := NewRow(s, |children|, depth, path, rails, last);
    var at := |before| + 1;
    ghost var trees;
    out, seen, trees := WalkAll(list, kids, children, depth + 1, path + [s.id], RailsUnder(depth, rails, last),
                                before + [row], seen + IdSet(children), marked);
    tree := Tree(s, trees);
    DrawnTree(list, marked + {s.id}, s, children, trees, seen);
    DrawWhole(before, out, s, |children|, trees, depth, path, rails, last);
    out := WithBelow(out, at);
  }

  /** Draws spans side by side that are all marked already. */
  method WalkAll(list: seq<Span>, kids: map<Id, seq<Span>>, roots: seq<Span>, depth: nat, path: seq<Id>,
                 rails: seq<bool>, before: seq<Row>, marked: set<Id>, ghost earlier: set<Id>)
    returns (out: seq<Row>, seen: set<Id>, ghost trees: seq<Tree>)
    requires DistinctIds(list) && KidsRight(list, kids) && DistinctIds(roots)
    requires earlier <= marked && IdSet(roots) <= marked - earlier && forall r :: r in roots ==> r in list
    ensures |trees| == |roots| && Drawn(list, marked, roots, trees, seen)
    ensures out == before + DrawAll(trees, |trees|, depth, path, rails)
    decreases IdSet(list) - earlier, 0
  {
    out, seen, trees := before, marked, [];
    DrawnNone(list, marked, roots);
    var i := 0;
    while i < |roots|
      invariant i == |trees| <= |roots| && marked <= seen
      invariant Drawn(list, marked, roots, trees, seen)
      invariant out == before + DrawAll(trees, |roots|, depth, path, rails)
    {
      var r := roots[i];
      assert r in roots && r.id in IdSet(roots);
      MoreSeen(list, earlier, marked, seen, r);
      ghost var t, now := Tree(r, []), seen;
      out, seen, t := Walk(list, kids, r, depth, path, rails, depth == 0 || i == |roots| - 1, out, seen);
      DrawnNext(list, marked, roots, trees, now, t, seen);
      DrawNext(before, trees, t, |roots|, depth, path, rails);
      trees := trees + [t];
      i := i + 1;
    }
  }

  // ---- a whole trace ------------------------------------------------------------------------------

  /** The children of each span among the first `n` spans. */
  ghost predicate KidsTo(list: seq<Span>, n: nat, kids: map<Id, seq<Span>>) {
    n <= |list| && forall id :: KidsAt(kids, id) == Select(list[..n], KidOf(list, id))
  }

  lemma SelectNext(list: seq<Span>, n: nat, f: Span -> bool)
    requires n < |list|
    ensures Select(list[..n + 1], f) == Select(list[..n], f) + if f(list[n]) then [list[n]] else []
  {
    assert list[..n + 1][..n] == list[..n];
  }

  lemma KidsNext(list: seq<Span>, n: nat, kids: map<Id, seq<Span>>)
    requires n < |list| && KidsTo(list, n, kids)
    ensures var s := list[n];
            KidsTo(list, n + 1, if IsKid(list, s) then kids[s.parent := KidsAt(kids, s.parent) + [s]] else kids)
  {
    var s := list[n];
    var more := if IsKid(list, s) then kids[s.parent := KidsAt(kids, s.parent) + [s]] else kids;
    forall id ensures KidsAt(more, id) == Select(list[..n + 1], KidOf(list, id)) {
      SelectNext(list, n, KidOf(list, id));
      assert KidsAt(kids, id) == Select(list[..n], KidOf(list, id));
    }
  }

  method Kids(list: seq<Span>) returns (kids: map<Id, seq<Span>>, roots: seq<Span>)
    ensures KidsRight(list, kids) && roots == Select(list, NoKid(list))
  {
    kids, roots := map[], [];
    var n := 0;
    while n < |list|
      invariant 0 <= n <= |list| && roots == Select(list[..n], NoKid(list)) && KidsTo(list, n, kids)
    {
      var s := list[n];
      KidsNext(list, n, kids);
      SelectNext(list, n, NoKid(list));
      if IsKid(list, s) {
        kids := kids[s.parent := KidsAt(kids, s.parent) + [s]];
      } else {
        roots := roots + [s];
      }
      n := n + 1;
    }
    assert list[..n] == list;
  }

  lemma {:induction false} TotalOfRoots(ts: seq<Tree>, a: nat, b: nat)
    ensures DrawAll(ts, a, 0, [], []) == DrawAll(ts, b, 0, [], [])
  {
    if |ts| > 0 { TotalOfRoots(ts[..|ts| - 1], a, b); }
  }

  lemma {:induction false} TreeInList(list: seq<Span>, t: Tree)
    requires TreeOk(list, t)
    ensures Ids(t) <= IdSet(list)
    decreases t
  {
    TreesInList(list, t.kids);
  }

  lemma {:induction false} TreesInList(list: seq<Span>, ts: seq<Tree>)
    requires forall k :: 0 <= k < |ts| ==> TreeOk(list, ts[k])
    ensures AllIds(ts) <= IdSet(list)
    decreases ts
  {
    if |ts| > 0 {
      TreesInList(list, ts[..|ts| - 1]);
      TreeInList(list, ts[|ts| - 1]);
    }
  }

  /** The chain of parents of `s` ends after at most `n` steps at a span that is
      nobody's child. */
  ghost predicate Rooted(list: seq<Span>, s: Span, n: nat)
    decreases n
  {
    !IsKid(list, s) || (n > 0 && exists p :: p in list && p.id == s.parent && Rooted(list, p, n - 1))
  }

  lemma {:induction false} RootedIsDrawn(list: seq<Span>, ids: set<Id>, s: Span, n: nat)
    requires s in list && Rooted(list, s, n) && Closed(list, ids, ids)
    requires forall r :: r in list && !IsKid(list, r) ==> r.id in ids
    ensures s.id in ids
    decreases n
  {
    if IsKid(list, s) {
      var p :| p in list && p.id == s.parent && Rooted(list, p, n - 1);
      RootedIsDrawn(list, ids, p, n - 1);
    }
  }

  ghost function Tops(list: seq<Span>): seq<Span> {
    ByStart(Select(list, NoKid(list)))
  }

  /** The spans that are nobody's children come first, in order; then, in
      order, spans that no chain of parents leads from to one of them. */
  ghost predicate RootsRight(list: seq<Span>, roots: seq<Span>) {
    var n := |Tops(list)|;
    && n <= |roots| && roots[..n] == Tops(list) && InOrder(roots[n..])
    && forall k, m: nat :: n <= k < |roots| ==> !Rooted(list, roots[k], m)
  }

  /** All that is seen is drawn, once, under its parent, with its children. */
  ghost predicate ForestOk(list: seq<Span>, forest: seq<Tree>, seen: set<Id>) {
    && seen == AllIds(forest) && AllOnce(forest) && Closed(list, seen, seen)
    && (forall k :: 0 <= k < |forest| ==> TreeOk(list, forest[k]))
    && forall r :: r in list && !IsKid(list, r) ==> r.id in seen
  }

  lemma SelectedRoots(list: seq<Span>)
    requires DistinctIds(list)
    ensures var top := ByStart(Select(list, NoKid(list)));
            DistinctIds(top) && forall r :: r in top <==> r in list && !IsKid(list, r)
  {
    Selects(list, NoKid(list));
    SelectNoRepeat(list, NoKid(list), IdOf());
    ByStartSorts(Select(list, NoKid(list)));
  }

  lemma TopDrawn(list: seq<Span>, forest: seq<Tree>, seen: set<Id>)
    requires DistinctIds(list)
    requires |forest| == |Tops(list)| && Drawn(list, IdSet(Tops(list)), Tops(list), forest, seen)
    ensures ForestOk(list, forest, seen) && RootsOf(forest) == Tops(list) && RootsRight(list, Tops(list))
  {
    var top := Tops(list);
    RootsAreDrawn(top, forest);
    assert top[..|forest|] == top;
    assert RootsOf(forest) == top;
    SelectedRoots(list);
  }

  lemma OneTree(list: seq<Span>, seen: set<Id>, s: Span, t: Tree, seen': set<Id>)
    requires Drawn(list, seen + {s.id}, [s], [t], seen') && s.id !in seen
    ensures t.span == s && TreeOk(list, t) && Once(t) && seen !! Ids(t)
    ensures seen' == seen + Ids(t) && Closed(list, Ids(t), seen')
  {
    IdsOfOne(t);
    assert [s][..1] == [s];
    assert IdSet([s]) == {s.id};
  }

  /** One of the spans no root leads to. */
  lemma RestDrawn(list: seq<Span>, forest: seq<Tree>, seen: set<Id>, s: Span, t: Tree, seen': set<Id>)
    requires ForestOk(list, forest, seen) && s.id !in seen
    requires Drawn(list, seen + {s.id}, [s], [t], seen')
    ensures ForestOk(list, forest + [t], seen') && seen <= seen' && s.id in seen' && t.span == s
  {
    OneTree(list, seen, s, t, seen');
    AllIdsLast(forest, t);
    ClosedJoin(list, seen, Ids(t), seen, seen');
    forall k | 0 <= k < |forest + [t]| ensures TreeOk(list, (forest + [t])[k]) { }
  }

  lemma RootsNext(forest: seq<Tree>, t: Tree)
    ensures RootsOf(forest + [t]) == RootsOf(forest) + [t.span]
  {
  }

  lemma NotRooted(list: seq<Span>, forest: seq<Tree>, seen: set<Id>, s: Span, m: nat)
    requires ForestOk(list, forest, seen) && s in list && s.id !in seen
    ensures !Rooted(list, s, m)
  {
    if Rooted(list, s, m) { RootedIsDrawn(list, seen, s, m); }
  }

  ghost predicate Before(a: Span, b: Span) {
    a.start < b.start || (a.start == b.start && a.id < b.id)
  }

  lemma OrderNext(s: seq<Span>, x: Span)
    requires InOrder(s) && forall k :: 0 <= k < |s| ==> Before(s[k], x)
    ensures InOrder(s + [x])
  {
  }

  /** The extra roots come in order before what is left of `rest`. */
  ghost predicate AfterRest(list: seq<Span>, roots: seq<Span>, rest: seq<Span>, i: nat) {
    forall k, j :: |Tops(list)| <= k < |roots| && i <= j < |rest| ==> Before(roots[k], rest[j])
  }

  lemma RestRight(list: seq<Span>, roots: seq<Span>, rest: seq<Span>, i: nat)
    requires RootsRight(list, roots) && AfterRest(list, roots, rest, i)
    requires InOrder(rest) && i < |rest| && forall m: nat :: !Rooted(list, rest[i], m)
    ensures RootsRight(list, roots + [rest[i]]) && AfterRest(list, roots + [rest[i]], rest, i + 1)
  {
    var n := |Tops(list)|;
    var more := roots + [rest[i]];
    assert more[..n] == roots[..n];
    assert more[n..] == roots[n..] + [rest[i]];
    OrderNext(roots[n..], rest[i]);
  }

  ghost predicate RestInv(list: seq<Span>, forest: seq<Tree>, seen: set<Id>, rest: seq<Span>, i: nat) {
    && ForestOk(list, forest, seen) && RootsRight(list, RootsOf(forest)) && AfterRest(list, RootsOf(forest), rest, i)
    && forall k :: 0 <= k < i && k < |rest| ==> rest[k].id in seen
  }

  lemma RestSkip(list: seq<Span>, forest: seq<Tree>, seen: set<Id>, rest: seq<Span>, i: nat)
    requires RestInv(list, forest, seen, rest, i) && i < |rest| && rest[i].id in seen
    ensures RestInv(list, forest, seen, rest, i + 1)
  {
  }

  lemma RestDone(list: seq<Span>, forest: seq<Tree>, seen: set<Id>, rest: seq<Span>)
    requires RestInv(list, forest, seen, rest, |rest|) && forall x :: x in rest <==> x in list
    ensures IdSet(list) <= seen
  {
    forall x | x in list ensures x.id in seen {
      var k :| 0 <= k < |rest| && rest[k] == x;
    }
  }

  lemma RestStep(list: seq<Span>, forest: seq<Tree>, seen: set<Id>, rest: seq<Span>, i: nat, t: Tree, seen': set<Id>)
    requires RestInv(list, forest, seen, rest, i) && InOrder(rest) && i < |rest|
    requires rest[i] in list && rest[i].id !in seen && Drawn(list, seen + {rest[i].id}, [rest[i]], [t], seen')
    ensures RestInv(list, forest + [t], seen', rest, i + 1)
  {
    forall m: nat ensures !Rooted(list, rest[i], m) { NotRooted(list, forest, seen, rest[i], m); }
    RestRight(list, RootsOf(forest), rest, i);
    RestDrawn(list, forest, seen, rest[i], t, seen');
    RootsNext(forest, t);
  }

  /** Draws what no root leads to: the spans of cycles and below. */
  method WalkRest(list: seq<Span>, kids: map<Id, seq<Span>>, before: seq<Row>, marked: set<Id>, ghost trees: seq<Tree>)
    returns (out: seq<Row>, seen: set<Id>, ghost forest: seq<Tree>)
    requires DistinctIds(list) && KidsRight(list, kids) && ForestOk(list, trees, marked)
    requires RootsOf(trees) == Tops(list) && RootsRight(list, Tops(list)) && before == DrawAll(trees, 0, 0, [], [])
    ensures ForestOk(list, forest, seen) && RootsRight(list, RootsOf(forest)) && IdSet(list) <= seen
    ensures out == DrawAll(forest, 0, 0, [], [])
  {
    out, seen, forest := before, marked, trees;
    var rest := ByStart(list);
    ByStartSorts(list);
    assert AfterRest(list, RootsOf(forest), rest, 0);
    var i := 0;
    while i < |rest|
      invariant 0 <= i <= |rest| && RestInv(list, forest, seen, rest, i)
      invariant out == DrawAll(forest, 0, 0, [], [])
    {
      var s := rest[i];
      assert s in rest;
      if s.id !in seen {
        ghost var t, now := Tree(s, []), seen;
        out, seen, t := Walk(list, kids, s, 0, [], [], true, out, seen);
        RestStep(list, forest, now, rest, i, t, seen);
        DrawNext([], forest, t, 0, 0, [], []);
        forest := forest + [t];
      } else {
        RestSkip(list, forest, seen, rest, i);
      }
      i := i + 1;
    }
    RestDone(list, forest, seen, rest);
  }

  /** Draws a trace: the rows are a forest drawn top to bottom in which every
      span is once, under its parent and among its siblings in order, and the
      roots are the spans without a parent in the trace, then those that only
      hang on a cycle. */
  method SpanRows(list: seq<Span>) returns (out: seq<Row>, ghost forest: seq<Tree>)
    requires DistinctIds(list)
    ensures out == DrawAll(forest, 0, 0, [], [])
    ensures AllOnce(forest) && AllIds(forest) == IdSet(list)
    ensures forall k :: 0 <= k < |forest| ==> TreeOk(list, forest[k])
    ensures RootsRight(list, RootsOf(forest))
  {
    var kids, roots := Kids(list);
    var top := ByStart(roots);
    SelectedRoots(list);
    var seen := IdSet(top);
    out, seen, forest := WalkAll(list, kids, top, 0, [], [], [], seen, {});
    TotalOfRoots(forest, |forest|, 0);
    TopDrawn(list, forest, seen);
    out, seen, forest := WalkRest(list, kids, out, seen, forest);
    TreesInList(list, forest);
  }
}
