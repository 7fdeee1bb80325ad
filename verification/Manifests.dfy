/** A layer's manifest: a table of entries, one for each chunk the layer has
    something to say about, sorted by offset. The types of layer ids (`P`) and
    chunk hashes (`H`) are left open: `ManifestCodec` reads and writes them as
    32 bytes, `Layers` takes them as ideal hashes. */
module Manifests {
  import opened Wrappers

  datatype EntryKind = Data | Zero

  datatype Entry<+H> = Entry(offset: nat, kind: EntryKind, hash: H, rawLen: nat, compLen: nat)

  datatype Manifest<+P, +H> =
    Manifest(chunkSize: nat, logicalSize: nat, parent: Option<P>, entries: seq<Entry<H>>)

  ghost predicate Sorted<H>(es: seq<Entry<H>>) {
    forall i, j :: 0 <= i < j < |es| ==> es[i].offset < es[j].offset
  }

  /** The table as a map from offsets: what a manifest means. */
  ghost function Table<H>(es: seq<Entry<H>>): map<nat, Entry<H>> {
    if |es| == 0 then map[]
    else Table(es[..|es| - 1])[es[|es| - 1].offset := es[|es| - 1]]
  }

  ghost function Lookup<H>(es: seq<Entry<H>>, offset: nat): Option<Entry<H>> {
    if offset in Table(es) then Some(Table(es)[offset]) else None
  }

  lemma {:induction false} TableKeys<H>(es: seq<Entry<H>>)
    ensures forall off :: off in Table(es) ==> Table(es)[off] in es && Table(es)[off].offset == off
    ensures forall e :: e in es ==> e.offset in Table(es)
  {
    if |es| > 0 {
      var init, last := es[..|es| - 1], es[|es| - 1];
      TableKeys(init);
      assert es == init + [last];
    }
  }

  lemma {:induction false} TableAt<H>(es: seq<Entry<H>>, i: nat)
    requires Sorted(es) && i < |es|
    ensures es[i].offset in Table(es) && Table(es)[es[i].offset] == es[i]
  {
    TableKeys(es);
    assert es[i] in es;
    var j :| 0 <= j < |es| && es[j] == Table(es)[es[i].offset];
    assert !(j < i) && !(i < j);
  }

  lemma LookupIn<H>(es: seq<Entry<H>>, e: Entry<H>)
    requires Sorted(es) && e in es
    ensures Lookup(es, e.offset) == Some(e)
  {
    var i :| 0 <= i < |es| && es[i] == e;
    TableAt(es, i);
  }

  lemma LookupFound<H>(es: seq<Entry<H>>, offset: nat)
    requires Lookup(es, offset).Some?
    ensures Lookup(es, offset).value in es && Lookup(es, offset).value.offset == offset
  {
    TableKeys(es);
  }

  lemma {:induction false} SameLast<H>(a: seq<Entry<H>>, b: seq<Entry<H>>)
    requires Sorted(a) && Sorted(b) && Table(a) == Table(b) && |a| > 0 && |b| > 0
    ensures a[|a| - 1] == b[|b| - 1]
  {
    TableAt(a, |a| - 1);
    TableAt(b, |b| - 1);
    TableKeys(a);
    TableKeys(b);
  }

  lemma InitIsBelow<H>(es: seq<Entry<H>>, e: Entry<H>)
    requires Sorted(es) && |es| > 0 && e in es[..|es| - 1]
    ensures e.offset < es[|es| - 1].offset
  {
    var i :| 0 <= i < |es| - 1 && es[..|es| - 1][i] == e;
    assert es[i] == e;
  }

  lemma TableBelow<H>(es: seq<Entry<H>>, bound: nat)
    requires forall e :: e in es ==> e.offset < bound
    ensures bound !in Table(es)
  {
    TableKeys(es);
  }

  lemma UpdateUndone<H>(m: map<nat, Entry<H>>, off: nat, e: Entry<H>)
    requires off !in m
    ensures m[off := e] - {off} == m
  {
  }

  lemma LastIsNew<H>(es: seq<Entry<H>>)
    requires Sorted(es) && |es| > 0
    ensures Table(es[..|es| - 1]) == Table(es) - {es[|es| - 1].offset}
  {
    var init, last := es[..|es| - 1], es[|es| - 1];
    forall e | e in init ensures e.offset < last.offset { InitIsBelow(es, e); }
    TableBelow(init, last.offset);
    UpdateUndone(Table(init), last.offset, last);
  }

  /** A sorted table is determined by its map. */
  lemma {:induction false} SortedTablesEqual<H>(a: seq<Entry<H>>, b: seq<Entry<H>>)
    requires Sorted(a) && Sorted(b) && Table(a) == Table(b)
    ensures a == b
  {
    if |a| == 0 {
      TableKeys(b);
    } else if |b| == 0 {
      TableKeys(a);
    } else {
      SameLast(a, b);
      var last := a[|a| - 1];
      LastIsNew(a);
      LastIsNew(b);
      SortedTablesEqual(a[..|a| - 1], b[..|b| - 1]);
      assert a == a[..|a| - 1] + [last] && b == b[..|b| - 1] + [last];
    }
  }

  lemma NotInTable<H>(es: seq<Entry<H>>, offset: nat)
    requires forall i :: 0 <= i < |es| ==> es[i].offset != offset
    ensures Lookup(es, offset) == None
  {
    TableKeys(es);
  }

  /** The exact-offset lookup, by binary search. */
  method EntryAt<P, H>(m: Manifest<P, H>, offset: nat) returns (r: Option<Entry<H>>)
    requires Sorted(m.entries)
    ensures r == Lookup(m.entries, offset)
  {
    var es := m.entries;
    var lo, hi := 0, |es|;
    while lo < hi
      invariant 0 <= lo <= hi <= |es|
      invariant forall i :: 0 <= i < lo ==> es[i].offset < offset
      invariant forall i :: hi <= i < |es| ==> es[i].offset > offset
    {
      var mid := lo + (hi - lo) / 2;
      if es[mid].offset == offset {
        TableAt(es, mid);
        return Some(es[mid]);
      } else if es[mid].offset < offset {
        lo := mid + 1;
      } else {
        hi := mid;
      }
    }
    NotInTable(es, offset);
    return None;
  }

  /** The first entry of the newest layer that has one at `offset`, by the
      layers' maps. */
  ghost function Resolved<P, H>(chain: seq<Manifest<P, H>>, offset: nat): Option<Entry<H>> {
    if |chain| == 0 then None
    else
      var e := Lookup(chain[|chain| - 1].entries, offset);
      if e.Some? then e else Resolved(chain[..|chain| - 1], offset)
  }

  /** Newest-first lookup through a chain, oldest layer first. */
  method Resolve<P, H>(chain: seq<Manifest<P, H>>, offset: nat) returns (r: Option<Entry<H>>)
    requires forall m :: m in chain ==> Sorted(m.entries)
    ensures r == Resolved(chain, offset)
  {
    var i := |chain|;
    assert chain[..i] == chain;
    while i > 0
      invariant 0 <= i <= |chain|
      invariant Resolved(chain, offset) == Resolved(chain[..i], offset)
    {
      i := i - 1;
      assert chain[..i + 1][..i] == chain[..i];
      r := EntryAt(chain[i], offset);
      if r.Some? { return; }
    }
    return None;
  }

  /** The chain as one map: each layer's table laid over those below it. */
  ghost function Flattened<P, H>(chain: seq<Manifest<P, H>>): map<nat, Entry<H>> {
    if |chain| == 0 then map[]
    else Flattened(chain[..|chain| - 1]) + Table(chain[|chain| - 1].entries)
  }

  lemma {:induction false} ResolvedIsFlattened<P, H>(chain: seq<Manifest<P, H>>, offset: nat)
    ensures Resolved(chain, offset) ==
            if offset in Flattened(chain) then Some(Flattened(chain)[offset]) else None
  {
    if |chain| > 0 {
      ResolvedIsFlattened(chain[..|chain| - 1], offset);
    }
  }
}
