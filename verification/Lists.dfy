/** Filtering and counting over sequences. */
module Lists {
  /** The elements that meet `f`, in order. */
  function Select<T>(s: seq<T>, f: T -> bool): (r: seq<T>) {
    if |s| == 0 then [] else Select(s[..|s| - 1], f) + if f(s[|s| - 1]) then [s[|s| - 1]] else []
  }

  lemma {:induction false} Selects<T>(s: seq<T>, f: T -> bool)
    ensures forall x :: x in Select(s, f) <==> x in s && f(x)
  {
    if |s| > 0 {
      var init := s[..|s| - 1];
      assert s == init + [s[|s| - 1]];
      Selects(init, f);
    }
  }

  lemma {:induction false} SelectedIn<T>(s: seq<T>, f: T -> bool, x: T)
    requires x in Select(s, f)
    ensures x in s && f(x)
  {
    if x in Select(s[..|s| - 1], f) { SelectedIn(s[..|s| - 1], f, x); }
  }

  ghost predicate NoRepeat<T>(s: seq<T>, id: T -> nat) {
    forall i, j :: 0 <= i < j < |s| ==> id(s[i]) != id(s[j])
  }

  /** What each kept element carries is carried once, if it was before. */
  lemma {:induction false} SelectNoRepeat<T>(s: seq<T>, f: T -> bool, id: T -> nat)
    requires NoRepeat(s, id)
    ensures NoRepeat(Select(s, f), id)
  {
    if |s| > 0 {
      var init := s[..|s| - 1];
      SelectNoRepeat(init, f, id);
      var kept := Select(init, f);
      forall k | 0 <= k < |kept| ensures id(kept[k]) != id(s[|s| - 1]) {
        SelectedIn(init, f, kept[k]);
        var j :| 0 <= j < |init| && init[j] == kept[k];
        assert s[j] == kept[k];
      }
    }
  }

  /** How many elements meet `f`. */
  ghost function Count<T>(s: seq<T>, f: T -> bool): nat {
    if |s| == 0 then 0 else Count(s[..|s| - 1], f) + if f(s[|s| - 1]) then 1 else 0
  }

  lemma {:induction false} CountConcat<T>(a: seq<T>, b: seq<T>, f: T -> bool)
    ensures Count(a + b, f) == Count(a, f) + Count(b, f)
  {
    if |b| == 0 {
      assert a + b == a;
    } else {
      assert (a + b)[..|a + b| - 1] == a + b[..|b| - 1];
      CountConcat(a, b[..|b| - 1], f);
    }
  }

  lemma {:induction false} CountNone<T>(s: seq<T>, f: T -> bool)
    requires forall x :: x in s ==> !f(x)
    ensures Count(s, f) == 0
  {
    if |s| > 0 {
      assert s[|s| - 1] in s;
      CountNone(s[..|s| - 1], f);
    }
  }

  lemma {:induction false} CountAll<T>(s: seq<T>, f: T -> bool)
    requires forall x :: x in s ==> f(x)
    ensures Count(s, f) == |s|
  {
    if |s| > 0 {
      assert s[|s| - 1] in s;
      CountAll(s[..|s| - 1], f);
    }
  }

  lemma {:induction false} CountFits<T>(s: seq<T>, f: T -> bool)
    ensures Count(s, f) <= |s|
    ensures Count(s, f) == |Select(s, f)|
  {
    if |s| > 0 { CountFits(s[..|s| - 1], f); }
  }

  lemma {:induction false} CountSame<T>(s: seq<T>, f: T -> bool, g: T -> bool)
    requires forall x :: x in s ==> f(x) == g(x)
    ensures Count(s, f) == Count(s, g)
  {
    if |s| > 0 {
      assert s[|s| - 1] in s;
      CountSame(s[..|s| - 1], f, g);
    }
  }

  /** Every element meets `h` that meets one of `f` and `g`, and none both. */
  lemma {:induction false} CountUnion<T>(s: seq<T>, f: T -> bool, g: T -> bool, h: T -> bool)
    requires forall x :: x in s ==> (h(x) <==> f(x) || g(x)) && !(f(x) && g(x))
    ensures Count(s, h) == Count(s, f) + Count(s, g)
  {
    if |s| > 0 {
      assert s[|s| - 1] in s;
      CountUnion(s[..|s| - 1], f, g, h);
    }
  }

  lemma CountOne<T>(x: T, f: T -> bool)
    ensures Count([x], f) == if f(x) then 1 else 0
  {
    assert [x][..0] == [];
  }

  lemma NoRepeatConcat<T(!new)>(a: seq<T>, b: seq<T>, id: T -> nat)
    requires NoRepeat(a, id) && NoRepeat(b, id) && forall x, y :: x in a && y in b ==> id(x) != id(y)
    ensures NoRepeat(a + b, id)
  {
    var ab := a + b;
    forall i, j | 0 <= i < j < |ab| ensures id(ab[i]) != id(ab[j]) {
      if i < |a| <= j {
        assert ab[i] in a && ab[j] in b;
      } else if j < |a| {
        assert id(a[i]) != id(a[j]);
      } else {
        assert id(b[i - |a|]) != id(b[j - |a|]);
      }
    }
  }
}
