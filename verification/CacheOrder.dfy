/** What the budget actor's messages do to the lengths it counts, to the order of
    use and to what is evicted, said of the lists themselves. */
module CacheOrder {
  import opened Wrappers
  import opened Layers
  import opened CacheBudget

  // ---- lengths ------------------------------------------------------------------------------

  /** The actor counts the chunk, in the list or as pinned, with this length. */
  ghost predicate Counts(s: State, h: Digest, n: nat) {
    (h, n) in s.lru || (h in s.pinned && s.pinned[h] == n)
  }

  lemma CountsKnown(s: State, h: Digest)
    ensures (exists n: nat :: Counts(s, h, n)) <==> Known(s, h)
  {
    if Has(s.lru, h) {
      var i :| 0 <= i < |s.lru| && s.lru[i].0 == h;
      assert (h, s.lru[i].1) in s.lru;
      assert Counts(s, h, s.lru[i].1);
    }
    if h in s.pinned { assert Counts(s, h, s.pinned[h]); }
  }

  lemma {:induction false} WithoutPairs(l: Lru, hs: set<Digest>, x: (Digest, nat))
    ensures x in Without(l, hs) <==> x in l && x.0 !in hs
  {
    if |l| > 0 {
      WithoutPairs(l[1..], hs, x);
      assert l == [l[0]] + l[1..];
    }
  }

  lemma {:induction false} LenIs(l: Lru, x: (Digest, nat))
    requires Distinct(l) && x in l
    ensures Has(l, x.0) && LruLen(l, x.0) == x.1
  {
    if l[0] != x {
      assert l == [l[0]] + l[1..];
      LenIs(l[1..], x);
      HasHead(l, x.0);
      assert !Has(l[1..], l[0].0);
    }
  }

  lemma {:induction false} TakenPairs(l: Lru, hs: set<Digest>, x: (Digest, nat))
    requires Distinct(l)
    ensures x.0 in Taken(l, hs) && Taken(l, hs)[x.0] == x.1 <==> x in l && x.0 in hs
  {
    if |l| > 0 {
      assert l == [l[0]] + l[1..];
      TakenPairs(l[1..], hs, x);
      assert !Has(l[1..], l[0].0);
      if x in l[1..] { LenIs(l[1..], x); }
    }
  }

  lemma RemovedCounts(s: State, h: Digest, x: Digest, n: nat)
    ensures Counts(Removed(s, h), x, n) <==> Counts(s, x, n) && x != h
  {
    WithoutPairs(s.lru, {h}, (x, n));
  }

  /** A chunk that came has the length it came with, and no other length
      changes. */
  lemma PlaceCounts(s: State, h: Digest, len: nat, x: Digest, n: nat)
    ensures Counts(Place(s, h, len), x, n) <==> if x == h then n == len else Counts(s, x, n)
  {
    RemovedCounts(s, h, x, n);
  }

  lemma TouchedCounts(s: State, h: Digest, x: Digest, n: nat)
    requires Distinct(s.lru)
    ensures Counts(Touched(s, h), x, n) <==> Counts(s, x, n)
  {
    WithoutPairs(s.lru, {h}, (x, n));
    if Has(s.lru, h) {
      var i :| 0 <= i < |s.lru| && s.lru[i].0 == h;
      LenIs(s.lru, s.lru[i]);
      if (h, n) in s.lru { LenIs(s.lru, (h, n)); }
    }
  }

  lemma PinCounts(s: State, hs: set<Digest>, x: Digest, n: nat)
    requires Inv(s)
    ensures Counts(PinFromLru(s, hs), x, n) <==> Counts(s, x, n)
  {
    WithoutPairs(s.lru, hs, (x, n));
    TakenPairs(s.lru, hs, (x, n));
    TakenKeys(s.lru, hs, x);
    if Has(s.lru, x) { assert x !in s.pinned; }
  }

  lemma UnpinCounts(s: State, tail: Lru, x: Digest, n: nat)
    requires IsUnwanted(s, tail)
    ensures Counts(Unpin(s, tail), x, n) <==> Counts(s, x, n)
  {
    KeysHas(tail, x);
    if (x, n) in tail {
      var i :| 0 <= i < |tail| && tail[i] == (x, n);
    }
    if Has(tail, x) {
      var i :| 0 <= i < |tail| && tail[i].0 == x;
      assert tail[i] in tail;
    }
  }

  /** The message is about the chunk's coming or going. */
  predicate Renews(m: Msg, x: Digest) {
    m == Remove(x) || (m.Admit? && m.hash == x)
  }

  lemma PreparedCounts(s: State, m: Msg, tail: Lru, p: State, x: Digest, n: nat)
    requires Inv(s) && Prepared(s, m, tail, p)
    ensures Counts(p, x, n) <==> m == Admit(x, n) || (Counts(s, x, n) && !Renews(m, x))
  {
    match m
    case Admit(h, len) => PlaceCounts(s, h, len, x, n);
    case Touch(h) => TouchedCounts(s, h, x, n);
    case Remove(h) => RemovedCounts(s, h, x, n);
    case Pin(keep) =>
      PinCounts(s, keep, x, n);
      UnpinCounts(PinFromLru(s, keep).(pins := keep), tail, x, n);
    case Hold(id, hashes, _) => PinCounts(s, SetOf(hashes), x, n);
    case Release(id) => if id in s.holds { UnpinCounts(s.(holds := s.holds - {id}), tail, x, n); }
    case EvictAll(_) =>
    case EvictToBudget(_) =>
  }

  lemma {:induction false} EvictPairs(l: Lru, bytes: nat, goal: nat, keep: set<Digest>, x: (Digest, nat))
    ensures var r := EvictTo(l, bytes, goal, keep); x in l <==> x in r.0 || x in r.2
    decreases |l|
  {
    if bytes > goal && Oldest(l, keep) < |l| {
      var i := Oldest(l, keep);
      EvictPairs(AfterDrop(l, keep), SatSub(bytes, l[i].1), goal, keep, x);
      assert l == l[..i] + [l[i]] + l[i + 1..];
    }
  }

  /** A message's preparation, and what it evicts then. */
  lemma Parts(s: State, m: Msg, s': State, victims: Lru) returns (tail: Lru, p: State)
    requires Handled(s, m, s', victims)
    ensures Prepared(s, m, tail, p)
    ensures match GoalOf(s, m)
            case None => s' == p && victims == []
            case Some((goal, keep)) => s' == Evict(p, goal, keep) && victims == Victims(p, goal, keep)
  {
    tail :| HandledBy(s, m, tail, s', victims);
    p :| Prepared(s, m, tail, p) &&
      match GoalOf(s, m)
      case None => s' == p && victims == []
      case Some((goal, keep)) => s' == Evict(p, goal, keep) && victims == Victims(p, goal, keep);
  }

  /** Every length the actor counts or evicts is the one it counted before, or the
      one that came with the message; only a chunk the message is about changes. */
  lemma HandleCounts(s: State, m: Msg, s': State, victims: Lru, x: Digest, n: nat)
    requires Inv(s) && Handled(s, m, s', victims)
    ensures Counts(s', x, n) || (x, n) in victims <==> m == Admit(x, n) || (Counts(s, x, n) && !Renews(m, x))
    ensures !(Known(s', x) && Has(victims, x))
  {
    var tail, p := Parts(s, m, s', victims);
    PreparedKeeps(s, m, tail, p);
    PreparedCounts(s, m, tail, p, x, n);
    match GoalOf(s, m) {
      case None =>
      case Some((goal, keep)) =>
        EvictPairs(p.lru, p.bytes, goal, keep, (x, n));
        EvictParts(p.lru, goal, keep);
        EvictKeeps(p, goal, keep);
    }
  }

  // ---- bytes --------------------------------------------------------------------------------

  /** All that the cache holds. */
  ghost function Total(s: State): nat {
    s.bytes + s.pinnedBytes
  }

  lemma RemovedTotal(s: State, h: Digest, n: nat)
    requires Inv(s)
    ensures Counts(s, h, n) ==> Total(Removed(s, h)) + n == Total(s)
    ensures !Known(s, h) ==> Total(Removed(s, h)) == Total(s)
  {
    RemovedSums(s, h);
    if (h, n) in s.lru {
      LenIs(s.lru, (h, n));
      LruLenSum(s.lru, h);
    } else if h in s.pinned {
      MapSumRemove(s.pinned, h);
    }
  }

  lemma PinTotal(s: State, hs: set<Digest>)
    requires Inv(s)
    ensures Total(PinFromLru(s, hs)) == Total(s)
  {
    SumSplit(s.lru, hs);
  }

  lemma UnpinTotal(s: State, tail: Lru)
    requires s.pinnedBytes == MapSum(s.pinned) && IsUnwanted(s, tail)
    ensures Total(Unpin(s, tail)) == Total(s)
  {
    TailSum(s.pinned, tail);
  }

  lemma PreparedTotal(s: State, m: Msg, tail: Lru, p: State, n: nat)
    requires Inv(s) && Prepared(s, m, tail, p)
    ensures !m.Admit? && !m.Remove? ==> Total(p) == Total(s)
    ensures m.Admit? && !Known(s, m.hash) ==> Total(p) == Total(s) + m.len
    ensures m.Admit? && Counts(s, m.hash, n) ==> Total(p) + n == Total(s) + m.len
    ensures m.Remove? && !Known(s, m.hash) ==> Total(p) == Total(s)
    ensures m.Remove? && Counts(s, m.hash, n) ==> Total(p) + n == Total(s)
  {
    match m
    case Admit(h, len) => RemovedTotal(s, h, n);
    case Touch(h) =>
    case Remove(h) => RemovedTotal(s, h, n);
    case Pin(keep) =>
      PinTotal(s, keep);
      PinFromLruKeeps(s, keep);
      UnpinTotal(PinFromLru(s, keep).(pins := keep), tail);
    case Hold(id, hashes, _) => PinTotal(s, SetOf(hashes));
    case Release(id) => if id in s.holds { UnpinTotal(s.(holds := s.holds - {id}), tail); }
    case EvictAll(_) =>
    case EvictToBudget(_) =>
  }

  /** Bytes are neither made nor lost: what the cache holds and what it evicts is
      what it held, with the chunk that came and without the one it forgot. */
  lemma HandleTotal(s: State, m: Msg, s': State, victims: Lru, n: nat)
    requires Inv(s) && Handled(s, m, s', victims)
    ensures !m.Admit? && !m.Remove? ==> Total(s') + Sum(victims) == Total(s)
    ensures m.Admit? && !Known(s, m.hash) ==> Total(s') + Sum(victims) == Total(s) + m.len
    ensures m.Admit? && Counts(s, m.hash, n) ==> Total(s') + Sum(victims) + n == Total(s) + m.len
    ensures m.Remove? && !Known(s, m.hash) ==> Total(s') == Total(s) && victims == []
    ensures m.Remove? && Counts(s, m.hash, n) ==> Total(s') + n == Total(s) && victims == []
  {
    var tail, p := Parts(s, m, s', victims);
    PreparedKeeps(s, m, tail, p);
    PreparedTotal(s, m, tail, p, n);
    match GoalOf(s, m) {
      case None =>
      case Some((goal, keep)) => EvictParts(p.lru, goal, keep);
    }
  }

  // ---- runs ---------------------------------------------------------------------------------

  ghost predicate StepAt(ss: seq<State>, ms: seq<Msg>, vs: seq<Lru>, k: nat)
    requires |ss| == |ms| + 1 == |vs| + 1 && k < |ms|
  {
    Handled(ss[k], ms[k], ss[k + 1], vs[k])
  }

  /** The actor's states, from the first, with the messages between them and what
      each evicted. */
  ghost predicate IsRun(ss: seq<State>, ms: seq<Msg>, vs: seq<Lru>) {
    && |ss| == |ms| + 1 == |vs| + 1 && Inv(ss[0])
    && forall k: nat :: k < |ms| ==> StepAt(ss, ms, vs, k)
  }

  lemma {:induction false} RunInv(ss: seq<State>, ms: seq<Msg>, vs: seq<Lru>, k: nat)
    requires IsRun(ss, ms, vs) && k < |ss|
    ensures Inv(ss[k])
  {
    if k > 0 {
      RunInv(ss, ms, vs, k - 1);
      assert StepAt(ss, ms, vs, k - 1);
      HandleKeeps(ss[k - 1], ms[k - 1], ss[k], vs[k - 1]);
    }
  }

  /** The chunk came with message `i - 1`, or was there at first if `i` is 0, and
      neither came again, was forgotten nor evicted up to `k`. */
  ghost predicate LastCame(ss: seq<State>, ms: seq<Msg>, vs: seq<Lru>, k: nat, x: Digest, n: nat, i: nat)
    requires IsRun(ss, ms, vs) && k < |ss|
  {
    && i <= k
    && (if i == 0 then Counts(ss[0], x, n) else ms[i - 1] == Admit(x, n) && !Has(vs[i - 1], x))
    && forall j :: i <= j < k ==> !Renews(ms[j], x) && !Has(vs[j], x)
  }

  lemma PairIsHad(l: Lru, x: Digest, n: nat)
    ensures (x, n) in l ==> Has(l, x)
  {
    if (x, n) in l {
      var i :| 0 <= i < |l| && l[i] == (x, n);
    }
  }

  /** One message more: the chunk came with it, or stays as it was. */
  lemma CountsNext(ss: seq<State>, ms: seq<Msg>, vs: seq<Lru>, k: nat, x: Digest, n: nat)
    requires IsRun(ss, ms, vs) && k < |ms|
    ensures Counts(ss[k + 1], x, n) <==>
            !Has(vs[k], x) && (ms[k] == Admit(x, n) || (Counts(ss[k], x, n) && !Renews(ms[k], x)))
  {
    RunInv(ss, ms, vs, k);
    assert StepAt(ss, ms, vs, k);
    HandleCounts(ss[k], ms[k], ss[k + 1], vs[k], x, n);
    PairIsHad(vs[k], x, n);
    CountsKnown(ss[k + 1], x);
  }

  lemma CameNext(ss: seq<State>, ms: seq<Msg>, vs: seq<Lru>, k: nat, x: Digest, n: nat, i: nat)
    requires IsRun(ss, ms, vs) && k < |ms|
    ensures LastCame(ss, ms, vs, k + 1, x, n, i) <==>
            !Has(vs[k], x)
            && ((i == k + 1 && ms[k] == Admit(x, n)) || (LastCame(ss, ms, vs, k, x, n, i) && !Renews(ms[k], x)))
  {
  }

  /** The actor counts a chunk exactly if it came, and last came with this length,
      and has been neither forgotten nor evicted since. */
  lemma {:induction false} RunCounts(ss: seq<State>, ms: seq<Msg>, vs: seq<Lru>, k: nat, x: Digest, n: nat)
    requires IsRun(ss, ms, vs) && k < |ss|
    ensures Counts(ss[k], x, n) <==> exists i: nat :: LastCame(ss, ms, vs, k, x, n, i)
  {
    if k == 0 {
      assert LastCame(ss, ms, vs, 0, x, n, 0) <==> Counts(ss[0], x, n);
    } else {
      RunCounts(ss, ms, vs, k - 1, x, n);
      CountsNext(ss, ms, vs, k - 1, x, n);
      if Counts(ss[k], x, n) {
        if ms[k - 1] == Admit(x, n) {
          CameNext(ss, ms, vs, k - 1, x, n, k);
        } else {
          var i: nat :| LastCame(ss, ms, vs, k - 1, x, n, i);
          CameNext(ss, ms, vs, k - 1, x, n, i);
        }
      }
      if i: nat :| LastCame(ss, ms, vs, k, x, n, i) { CameNext(ss, ms, vs, k - 1, x, n, i); }
    }
  }

  // ---- the order of use -------------------------------------------------------------------------

  /** `x` was used before `y`. */
  ghost predicate Before(l: Lru, x: Digest, y: Digest) {
    exists i, j :: 0 <= i < j < |l| && l[i].0 == x && l[j].0 == y
  }

  lemma BeforeInConcat(a: Lru, b: Lru, x: Digest, y: Digest)
    requires Before(a, x, y) || Before(b, x, y) || (Has(a, x) && Has(b, y))
    ensures Before(a + b, x, y)
  {
    var c := a + b;
    if Before(a, x, y) {
      var i, j :| 0 <= i < j < |a| && a[i].0 == x && a[j].0 == y;
      assert c[i].0 == x && c[j].0 == y;
    } else if Before(b, x, y) {
      var i, j :| 0 <= i < j < |b| && b[i].0 == x && b[j].0 == y;
      assert c[|a| + i].0 == x && c[|a| + j].0 == y;
    } else {
      var i :| 0 <= i < |a| && a[i].0 == x;
      var j :| 0 <= j < |b| && b[j].0 == y;
      assert c[i].0 == x && c[|a| + j].0 == y;
    }
  }

  lemma BeforeOfConcat(a: Lru, b: Lru, x: Digest, y: Digest)
    requires Before(a + b, x, y)
    ensures Before(a, x, y) || Before(b, x, y) || (Has(a, x) && Has(b, y))
  {
    var c := a + b;
    var i, j :| 0 <= i < j < |c| && c[i].0 == x && c[j].0 == y;
    if j < |a| {
      assert a[i].0 == x && a[j].0 == y;
    } else if i >= |a| {
      assert b[i - |a|].0 == x && b[j - |a|].0 == y;
    } else {
      assert a[i].0 == x && b[j - |a|].0 == y;
    }
  }

  lemma BeforeConcat(a: Lru, b: Lru, x: Digest, y: Digest)
    ensures Before(a + b, x, y) <==> Before(a, x, y) || Before(b, x, y) || (Has(a, x) && Has(b, y))
  {
    if Before(a, x, y) || Before(b, x, y) || (Has(a, x) && Has(b, y)) { BeforeInConcat(a, b, x, y); }
    if Before(a + b, x, y) { BeforeOfConcat(a, b, x, y); }
  }

  lemma BeforeHas(l: Lru, x: Digest, y: Digest)
    requires Before(l, x, y)
    ensures Has(l, x) && Has(l, y)
  {
  }

  lemma {:induction false} WithoutOrder(l: Lru, hs: set<Digest>, x: Digest, y: Digest)
    requires x !in hs && y !in hs
    ensures Before(Without(l, hs), x, y) <==> Before(l, x, y)
  {
    if |l| > 0 {
      var first, rest := [l[0]], l[1..];
      assert l == first + rest;
      WithoutOrder(rest, hs, x, y);
      BeforeConcat(first, rest, x, y);
      BeforeConcat(first, Without(rest, hs), x, y);
      WithoutHas(rest, hs, y);
      assert Has(first, x) <==> l[0].0 == x by { assert first[0] == l[0]; }
    }
  }

  /** The chunk that the message makes the most recently used. */
  predicate Uses(m: Msg, x: Digest) {
    (m.Admit? || m.Touch?) && m.hash == x
  }

  /** A message leaves the list without some of its chunks, and with others behind
      it that were not in it or are used by the message. */
  ghost predicate Shape(s: State, m: Msg, p: State, out: set<Digest>, more: Lru) {
    && p.lru == Without(s.lru, out) + more
    && (forall y :: Has(more, y) ==> Uses(m, y) || !Has(s.lru, y))
    && (forall y :: Uses(m, y) && Has(p.lru, y) ==> Has(more, y))
  }

  lemma NoneOut(l: Lru)
    ensures Without(l, {}) + [] == l
  {
    WithoutNone(l, {});
  }

  lemma UsedShape(s: State, m: Msg, p: State, h: Digest, len: nat)
    requires Uses(m, h) && p.lru == Without(s.lru, {h}) + [(h, len)]
    ensures Shape(s, m, p, {h}, [(h, len)])
  {
    assert [(h, len)][0].0 == h;
  }

  lemma TailIsNew(s: State, hs: set<Digest>, s1: State, tail: Lru, y: Digest)
    requires Inv(s) && IsUnwanted(s1, tail) && Has(tail, y)
    requires s1.pinned == s.pinned + Taken(s.lru, hs) && forall h :: h in hs ==> Wanted(s1, h)
    ensures !Has(s.lru, y)
  {
    TakenKeys(s.lru, hs, y);
  }

  lemma AdmitShape(s: State, h: Digest, len: nat)
    ensures Shape(s, Admit(h, len), Place(s, h, len), {h}, if Wanted(s, h) then [] else [(h, len)])
  {
    var left := Without(s.lru, {h});
    WithoutHas(s.lru, {h}, h);
    if Wanted(s, h) {
      assert left + [] == left;
    } else {
      UsedShape(s, Admit(h, len), Place(s, h, len), h, len);
    }
  }

  lemma PinShape(s: State, keep: set<Digest>, tail: Lru, p: State)
    requires Inv(s) && Prepared(s, Pin(keep), tail, p)
    ensures Shape(s, Pin(keep), p, keep, tail)
  {
    forall y | Has(tail, y) ensures !Has(s.lru, y) {
      TailIsNew(s, keep, PinFromLru(s, keep).(pins := keep), tail, y);
    }
  }

  lemma PreparedShape(s: State, m: Msg, tail: Lru, p: State) returns (out: set<Digest>, more: Lru)
    requires Inv(s) && Prepared(s, m, tail, p)
    ensures Shape(s, m, p, out, more)
  {
    out, more := {}, [];
    NoneOut(s.lru);
    match m
    case Admit(h, len) =>
      out, more := {h}, if Wanted(s, h) then [] else [(h, len)];
      AdmitShape(s, h, len);
    case Touch(h) =>
      if Has(s.lru, h) {
        out, more := {h}, [(h, LruLen(s.lru, h))];
        UsedShape(s, m, p, h, LruLen(s.lru, h));
      }
    case Remove(h) =>
      out := {h};
      assert p.lru == Without(s.lru, {h}) + [];
    case Pin(keep) =>
      out, more := keep, tail;
      PinShape(s, keep, tail, p);
    case Hold(id, hashes, _) =>
      out := SetOf(hashes);
      assert p.lru == Without(s.lru, out) + [];
    case Release(id) =>
      if id in s.holds {
        more := tail;
        WithoutNone(s.lru, {});
      }
    case EvictAll(_) =>
    case EvictToBudget(_) =>
  }

  lemma ShapeOrder(s: State, m: Msg, p: State, out: set<Digest>, more: Lru, x: Digest, y: Digest)
    requires Shape(s, m, p, out, more) && Has(s.lru, x) && Has(p.lru, x) && Has(p.lru, y) && !Uses(m, x)
    ensures Has(s.lru, y) && !Uses(m, y) ==> (Before(p.lru, x, y) <==> Before(s.lru, x, y))
    ensures !Has(s.lru, y) || Uses(m, y) ==> Before(p.lru, x, y)
  {
    var left := Without(s.lru, out);
    HasConcat(left, more, x);
    HasConcat(left, more, y);
    WithoutHas(s.lru, out, x);
    WithoutHas(s.lru, out, y);
    BeforeConcat(left, more, x, y);
    if Has(s.lru, y) && !Uses(m, y) {
      WithoutOrder(s.lru, out, x, y);
      if Before(more, x, y) { BeforeHas(more, x, y); }
    }
  }

  /** Eviction takes the oldest chunks outside `keep`, and leaves the others of them
      in their order. */
  lemma {:induction false} EvictSplit(l: Lru, goal: nat, keep: set<Digest>)
    requires Distinct(l)
    ensures var (rest, bytes, victims) := EvictTo(l, Sum(l), goal, keep);
            Without(l, keep) == victims + Without(rest, keep)
    decreases |l|
  {
    if Sum(l) > goal && Oldest(l, keep) < |l| {
      var x, l' := l[Oldest(l, keep)], AfterDrop(l, keep);
      AfterDropKeeps(l, keep);
      EvictSplit(l', goal, keep);
      var (rest, bytes, vs) := EvictTo(l', Sum(l'), goal, keep);
      assert [x] + (vs + Without(rest, keep)) == ([x] + vs) + Without(rest, keep);
    }
  }

  lemma EvictOrder(l: Lru, goal: nat, keep: set<Digest>, x: Digest, y: Digest)
    requires Distinct(l) && x !in keep && y !in keep
    ensures var (rest, bytes, victims) := EvictTo(l, Sum(l), goal, keep);
            && (Has(rest, x) && Has(rest, y) ==> (Before(rest, x, y) <==> Before(l, x, y)))
            && (Has(victims, x) && Has(rest, y) ==> Before(l, x, y))
  {
    var (rest, bytes, victims) := EvictTo(l, Sum(l), goal, keep);
    EvictSplit(l, goal, keep);
    EvictParts(l, goal, keep);
    WithoutOrder(l, keep, x, y);
    WithoutOrder(rest, keep, x, y);
    WithoutHas(rest, keep, y);
    BeforeConcat(victims, Without(rest, keep), x, y);
    if Before(victims, x, y) { BeforeHas(victims, x, y); }
  }

  /** The chunks a message asks to spare. */
  function Spares(m: Msg): set<Digest> {
    match m
    case EvictAll(keep) => keep
    case EvictToBudget(keep) => keep
    case _ => {}
  }

  /** The order of use. Chunks that a message does not use stay in their order; it
      puts the one it uses, and those that lose their pin, behind them; and what it
      evicts was used before all that it leaves. The chunks an eviction is asked to
      spare may be moved. */
  lemma HandleOrder(s: State, m: Msg, s': State, victims: Lru, x: Digest, y: Digest)
    requires Inv(s) && Handled(s, m, s', victims)
    requires Has(s.lru, x) && !Uses(m, x) && x !in Spares(m) && y !in Spares(m) && Has(s'.lru, y)
    ensures Has(s'.lru, x) && Has(s.lru, y) && !Uses(m, y) ==> (Before(s'.lru, x, y) <==> Before(s.lru, x, y))
    ensures Has(s'.lru, x) && (!Has(s.lru, y) || Uses(m, y)) ==> Before(s'.lru, x, y)
    ensures Has(victims, x) && Has(s.lru, y) && !Uses(m, y) ==> Before(s.lru, x, y)
  {
    var tail, p := Parts(s, m, s', victims);
    PreparedKeeps(s, m, tail, p);
    var out, more := PreparedShape(s, m, tail, p);
    match GoalOf(s, m) {
      case None =>
        if Has(p.lru, x) { ShapeOrder(s, m, p, out, more, x, y); }
      case Some((goal, keep)) =>
        EvictParts(p.lru, goal, keep);
        EvictOrder(p.lru, goal, keep, x, y);
        if Has(p.lru, x) { ShapeOrder(s, m, p, out, more, x, y); }
    }
  }

  // ---- what goes ------------------------------------------------------------------------------

  /** The least eviction: nothing asked to be spared goes, the goal is met unless
      nothing else is left, and the last to go had to. */
  ghost predicate LeastEviction(s': State, victims: Lru, goal: nat, keep: set<Digest>) {
    && (forall h :: Has(victims, h) ==> h !in keep)
    && (s'.bytes <= goal || forall h :: Has(s'.lru, h) ==> h in keep)
    && (victims != [] ==> s'.bytes + victims[|victims| - 1].1 > goal)
  }

  lemma SparedOrNot(l: Lru, goal: nat, keep: set<Digest>, h: Digest)
    requires Distinct(l)
    ensures var (rest, bytes, victims) := EvictTo(l, Sum(l), goal, keep);
            && (Has(victims, h) ==> h !in keep)
            && (victims == Without(l, keep) && Has(rest, h) ==> h in keep)
  {
    var (rest, bytes, victims) := EvictTo(l, Sum(l), goal, keep);
    EvictSplit(l, goal, keep);
    HasConcat(victims, Without(rest, keep), h);
    WithoutHas(l, keep, h);
    WithoutHas(rest, keep, h);
    assert victims == Without(l, keep) ==> |Without(rest, keep)| == 0;
  }

  lemma LastHadTo(l: Lru, goal: nat, keep: set<Digest>)
    requires Distinct(l)
    ensures var (rest, bytes, victims) := EvictTo(l, Sum(l), goal, keep);
            victims != [] ==> bytes + victims[|victims| - 1].1 > goal
  {
    var (rest, bytes, vs) := EvictTo(l, Sum(l), goal, keep);
    EvictParts(l, goal, keep);
    EvictPrefix(l, goal, keep);
    if vs != [] {
      var k := |vs| - 1;
      assert vs == vs[..k] + [vs[k]];
      SumSnoc(vs[..k], vs[k]);
    }
  }

  lemma EvictIsLeast(s: State, goal: nat, keep: set<Digest>)
    requires Inv(s)
    ensures LeastEviction(Evict(s, goal, keep), Victims(s, goal, keep), goal, keep)
  {
    EvictPrefix(s.lru, goal, keep);
    LastHadTo(s.lru, goal, keep);
    forall h ensures Has(Victims(s, goal, keep), h) ==> h !in keep
             ensures Victims(s, goal, keep) == Without(s.lru, keep) && Has(Evict(s, goal, keep).lru, h) ==> h in keep
    {
      SparedOrNot(s.lru, goal, keep, h);
    }
  }

  /** What each message evicts. Evicting all goes down to nothing, any other
      eviction to the budget. */
  lemma HandleEvicts(s: State, m: Msg, s': State, victims: Lru)
    requires Inv(s) && Handled(s, m, s', victims)
    ensures m.EvictAll? ==> LeastEviction(s', victims, 0, m.keep)
    ensures m.EvictToBudget? ==> LeastEviction(s', victims, s.budget, m.keep)
    ensures m.Admit? || m.Pin? || (m.Release? && m.id in s.holds) ==>
              LeastEviction(s', victims, s.budget, {}) && s'.bytes <= s.budget
    ensures m.Touch? || m.Remove? || m.Hold? || (m.Release? && m.id !in s.holds) ==> victims == []
  {
    var tail, p := Parts(s, m, s', victims);
    PreparedKeeps(s, m, tail, p);
    match GoalOf(s, m) {
      case None =>
      case Some((goal, keep)) =>
        EvictIsLeast(p, goal, keep);
        EvictKeeps(p, goal, keep);
    }
  }

  /** What a message pins and holds. */
  lemma HandleHolds(s: State, m: Msg, s': State, victims: Lru, id: nat, h: Digest)
    requires Inv(s) && Handled(s, m, s', victims)
    ensures h in s'.pins <==> if m.Pin? then h in m.keep else h in s.pins
    ensures id in s'.holds && h in s'.holds[id] <==>
            || (m.Hold? && m.id == id && h in m.hashes)
            || (id in s.holds && h in s.holds[id] && m != Release(id))
  {
    HandleKeeps(s, m, s', victims);
  }

  /** A chunk that is pinned or held, and was there or came, is there: neither
      evicted nor in the list that evictions take from. */
  lemma ProtectedStays(s: State, m: Msg, s': State, victims: Lru, h: Digest, id: nat)
    requires Inv(s) && Handled(s, m, s', victims)
    requires h in s'.pins || (id in s'.holds && h in s'.holds[id])
    requires m != Remove(h) && (Known(s, h) || (m.Admit? && m.hash == h))
    ensures h in s'.pinned && !Has(s'.lru, h) && !Has(victims, h)
  {
    HandleKeeps(s, m, s', victims);
    assert Wanted(s', h);
    CountsKnown(s, h);
    if m.Admit? && m.hash == h {
      HandleCounts(s, m, s', victims, h, m.len);
      PairIsHad(victims, h, m.len);
    } else {
      var n: nat :| Counts(s, h, n);
      HandleCounts(s, m, s', victims, h, n);
      PairIsHad(victims, h, n);
    }
    CountsKnown(s', h);
  }
}
