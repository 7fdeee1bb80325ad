/** The binary form of a manifest, and what is hashed into its layer id. Layer
    ids and chunk hashes are 32 bytes each here. */
module ManifestCodec {
  import opened Wrappers
  import opened Arithmetic
  import opened Manifests
  import opened Layers

  type Bytes = seq<Byte>
  type WireManifest = Manifest<Bytes, Bytes>

  const MAGIC: Bytes := [68, 83, 75, 68, 77, 65, 78, 0]
  const VERSION: nat := 1
  const HEADER_SIZE: nat := 64
  const ENTRY_SIZE: nat := 52
  const MAX_U32: nat := 0x1_0000_0000
  const MAX_U64: nat := 0x1_0000_0000_0000_0000

  datatype Corrupt = ShortHeader | BadMagic | BadVersion | BadSize | BadKind | NotSorted

  // ---- little-endian numbers ---------------------------------------------------

  function LE(n: nat, width: nat): (b: Bytes)
    ensures |b| == width
  {
    if width == 0 then [] else [n % 256] + LE(n / 256, width - 1)
  }

  function FromLE(b: Bytes): nat {
    if |b| == 0 then 0 else b[0] + 256 * FromLE(b[1..])
  }

  ghost function Pow256(width: nat): nat {
    if width == 0 then 1 else 256 * Pow256(width - 1)
  }

  lemma {:induction false} LERoundTrip(n: nat, width: nat)
    requires n < Pow256(width)
    ensures FromLE(LE(n, width)) == n
  {
    if width > 0 {
      LERoundTrip(n / 256, width - 1);
      assert LE(n, width)[1..] == LE(n / 256, width - 1);
    }
  }

  lemma {:induction false} Pow256Positive(width: nat)
    ensures Pow256(width) > 0
  {
    if width > 0 { Pow256Positive(width - 1); }
  }

  lemma QuotientIs(n: nat, d: nat, q: nat, r: nat)
    requires n == d * q + r && r < d
    ensures n / d == q
  {
    ModOf(q, r, d);
  }

  /** Dividing twice is dividing by the product. */
  lemma DivTwice(n: nat, p: nat)
    requires p > 0
    ensures (n / 256) / p == n / (256 * p)
  {
    var s, t := (n / 256) / p, (n / 256) % p;
    var ps := p * s;
    assert n / 256 == ps + t && n == 256 * (ps + t) + n % 256;
    assert (256 * p) * s == 256 * ps;
    QuotientIs(n, 256 * p, s, 256 * t + n % 256);
  }

  ghost function Digit(n: nat, k: nat): nat {
    Pow256Positive(k);
    n / Pow256(k) % 256
  }

  /** The `width` bytes at `at` are the number's digits to the base 256, the lowest
      first. */
  ghost predicate IsLE(b: Bytes, at: nat, n: nat, width: nat) {
    && at + width <= |b| && n < Pow256(width)
    && forall k: nat :: k < width ==> b[at + k] == Digit(n, k)
  }

  lemma DigitNext(n: nat, k: nat)
    ensures Digit(n, k + 1) == Digit(n / 256, k) && Digit(n, 0) == n % 256
  {
    Pow256Positive(k);
    DivTwice(n, Pow256(k));
  }

  lemma {:induction false} LEDigits(n: nat, width: nat, k: nat)
    requires k < width
    ensures LE(n, width)[k] == Digit(n, k)
  {
    DigitNext(n, 0);
    if k > 0 {
      DigitNext(n, k - 1);
      LEDigits(n / 256, width - 1, k - 1);
      assert LE(n, width)[k] == LE(n / 256, width - 1)[k - 1];
    }
  }

  lemma {:induction false} FromLEDigits(b: Bytes, k: nat)
    ensures FromLE(b) < Pow256(|b|)
    ensures k < |b| ==> b[k] == Digit(FromLE(b), k)
  {
    if |b| > 0 {
      FromLEDigits(b[1..], if k > 0 then k - 1 else 0);
      DigitNext(FromLE(b), 0);
      assert FromLE(b) / 256 == FromLE(b[1..]) && FromLE(b) % 256 == b[0];
      if 0 < k < |b| { DigitNext(FromLE(b), k - 1); }
    }
  }

  lemma {:induction false} DigitsAre(b: Bytes, n: nat)
    requires n < Pow256(|b|) && forall k: nat :: k < |b| ==> b[k] == Digit(n, k)
    ensures FromLE(b) == n
  {
    if |b| > 0 {
      DigitNext(n, 0);
      forall k: nat | k < |b[1..]| ensures b[1..][k] == Digit(n / 256, k) {
        DigitNext(n, k);
        assert b[k + 1] == Digit(n, k + 1);
      }
      DigitsAre(b[1..], n / 256);
    }
  }

  /** Reading a number is finding the one whose digits are there. */
  lemma ReadIff(b: Bytes, at: nat, n: nat, width: nat)
    requires at + width <= |b|
    ensures IsLE(b, at, n, width) <==> FromLE(b[at..at + width]) == n
  {
    var s := b[at..at + width];
    forall k: nat | k < width ensures s[k] == b[at + k] { }
    if IsLE(b, at, n, width) {
      DigitsAre(s, n);
    }
    if FromLE(s) == n {
      FromLEDigits(s, 0);
      forall k: nat | k < width ensures b[at + k] == Digit(n, k) { FromLEDigits(s, k); }
    }
  }

  lemma WrittenIs(b: Bytes, at: nat, n: nat, width: nat)
    requires at + width <= |b| && n < Pow256(width) && b[at..at + width] == LE(n, width)
    ensures IsLE(b, at, n, width)
  {
    forall k: nat | k < width ensures b[at + k] == Digit(n, k) {
      LEDigits(n, width, k);
      assert b[at..at + width][k] == b[at + k];
    }
  }

  lemma Widths()
    ensures Pow256(4) == MAX_U32 && Pow256(8) == MAX_U64
  {
    assert Pow256(2) == 65536;
    assert Pow256(4) == 65536 * Pow256(2);
    assert Pow256(6) == 65536 * Pow256(4);
    assert Pow256(8) == 65536 * Pow256(6);
  }

  lemma U32(n: nat)
    requires n < MAX_U32
    ensures FromLE(LE(n, 4)) == n
  {
    Widths();
    LERoundTrip(n, 4);
  }

  lemma U64(n: nat)
    requires n < MAX_U64
    ensures FromLE(LE(n, 8)) == n
  {
    Widths();
    LERoundTrip(n, 8);
  }

  // ---- entries --------------------------------------------------------------------

  ghost predicate EntryFits(e: Entry<Bytes>) {
    e.offset < MAX_U64 && |e.hash| == 32 && e.rawLen < MAX_U32 && e.compLen < MAX_U32
  }

  function EntryBytes(e: Entry<Bytes>): Bytes {
    LE(e.offset, 8) + [if e.kind.Data? then 0 else 1] + Zeros(3) + e.hash + LE(e.rawLen, 4) + LE(e.compLen, 4)
  }

  predicate KindOk(b: Bytes)
    requires |b| == ENTRY_SIZE
  {
    b[8] == 0 || b[8] == 1
  }

  function EntryOf(b: Bytes): Entry<Bytes>
    requires |b| == ENTRY_SIZE
  {
    Entry(FromLE(b[0..8]), if b[8] == 0 then Data else Zero, b[12..44], FromLE(b[44..48]), FromLE(b[48..52]))
  }

  /** An entry's 52 bytes at `at`: the offset, the kind, three bytes without meaning,
      the hash, the raw and the compressed length. */
  ghost predicate EntryLayout(b: Bytes, at: nat, e: Entry<Bytes>) {
    && at + 52 <= |b|
    && IsLE(b, at, e.offset, 8)
    && b[at + 8] == (if e.kind == Data then 0 else 1)
    && b[at + 12..at + 44] == e.hash
    && IsLE(b, at + 44, e.rawLen, 4)
    && IsLE(b, at + 48, e.compLen, 4)
  }

  lemma EntryIsLaidOut(e: Entry<Bytes>)
    requires EntryFits(e)
    ensures |EntryBytes(e)| == 52 && EntryLayout(EntryBytes(e), 0, e)
    ensures EntryBytes(e)[9] == EntryBytes(e)[10] == EntryBytes(e)[11] == 0
  {
    var b := EntryBytes(e);
    Widths();
    assert b[0..8] == LE(e.offset, 8);
    assert b[12..44] == e.hash;
    assert b[44..48] == LE(e.rawLen, 4);
    assert b[48..52] == LE(e.compLen, 4);
    WrittenIs(b, 0, e.offset, 8);
    WrittenIs(b, 44, e.rawLen, 4);
    WrittenIs(b, 48, e.compLen, 4);
  }

  /** Reading an entry gives the one that is laid out there, and nothing else. */
  lemma EntryReadIff(b: Bytes, e: Entry<Bytes>)
    requires |b| == ENTRY_SIZE
    ensures EntryLayout(b, 0, e) <==> KindOk(b) && EntryOf(b) == e
  {
    ReadIff(b, 0, e.offset, 8);
    ReadIff(b, 44, e.rawLen, 4);
    ReadIff(b, 48, e.compLen, 4);
  }

  lemma EntryRoundTrip(e: Entry<Bytes>)
    requires EntryFits(e)
    ensures |EntryBytes(e)| == ENTRY_SIZE && KindOk(EntryBytes(e)) && EntryOf(EntryBytes(e)) == e
  {
    var b := EntryBytes(e);
    assert b[0..8] == LE(e.offset, 8);
    assert b[12..44] == e.hash;
    assert b[44..48] == LE(e.rawLen, 4);
    assert b[48..52] == LE(e.compLen, 4);
    U64(e.offset);
    U32(e.rawLen);
    U32(e.compLen);
  }

  ghost function Body(es: seq<Entry<Bytes>>): Bytes {
    if |es| == 0 then [] else Body(es[..|es| - 1]) + EntryBytes(es[|es| - 1])
  }

  lemma {:induction false} BodyAt(es: seq<Entry<Bytes>>, i: nat)
    requires forall e :: e in es ==> EntryFits(e)
    ensures |Body(es)| == ENTRY_SIZE * |es|
    ensures i < |es| ==> Body(es)[ENTRY_SIZE * i..ENTRY_SIZE * i + ENTRY_SIZE] == EntryBytes(es[i])
  {
    if |es| > 0 {
      var init, last := es[..|es| - 1], es[|es| - 1];
      BodyAt(init, i);
      EntryRoundTrip(last);
      if i < |init| {
        var (a, b) := (ENTRY_SIZE * i, ENTRY_SIZE * i + ENTRY_SIZE);
        assert Body(es)[a..b] == Body(init)[a..b];
        assert init[i] == es[i];
      }
    }
  }

  /** A table is known by its bytes. */
  lemma BodyInjective(a: seq<Entry<Bytes>>, b: seq<Entry<Bytes>>)
    requires forall e :: e in a ==> EntryFits(e)
    requires forall e :: e in b ==> EntryFits(e)
    requires Body(a) == Body(b)
    ensures a == b
  {
    BodyAt(a, 0);
    BodyAt(b, 0);
    assert |a| == |b|;
    forall i | 0 <= i < |a| ensures a[i] == b[i] {
      BodyAt(a, i);
      BodyAt(b, i);
      EntryRoundTrip(a[i]);
      EntryRoundTrip(b[i]);
    }
  }

  // ---- manifests -----------------------------------------------------------------------

  /** A manifest that its binary form can carry. No layer's id is all zeros. */
  ghost predicate Fits(m: WireManifest) {
    && m.chunkSize < MAX_U32 && m.logicalSize < MAX_U64 && |m.entries| < MAX_U32
    && (m.parent.Some? ==> |m.parent.value| == 32 && m.parent.value != Zeros(32))
    && (forall e :: e in m.entries ==> EntryFits(e))
    && Sorted(m.entries)
  }

  function ParentBytes(p: Option<Bytes>): Bytes {
    if p.Some? then p.value else Zeros(32)
  }

  function Header(m: WireManifest): Bytes {
    MAGIC + LE(VERSION, 4) + LE(0, 4) + LE(m.chunkSize, 4) + LE(|m.entries|, 4) + LE(m.logicalSize, 8)
    + ParentBytes(m.parent)
  }

  ghost function Encoded(m: WireManifest): Bytes {
    Header(m) + Body(m.entries)
  }

  ghost function Preimage(m: WireManifest): Bytes {
    LE(m.logicalSize, 8) + LE(m.chunkSize, 4) + ParentBytes(m.parent) + Body(m.entries)
  }

  /** Equal layer ids, of a hash without collisions, are of equal manifests. */
  lemma LayerIdInjective(a: WireManifest, b: WireManifest)
    requires Fits(a) && Fits(b) && Preimage(a) == Preimage(b)
    ensures a == b
  {
    var p, q := Preimage(a), Preimage(b);
    assert p[0..8] == LE(a.logicalSize, 8) && q[0..8] == LE(b.logicalSize, 8);
    assert p[8..12] == LE(a.chunkSize, 4) && q[8..12] == LE(b.chunkSize, 4);
    assert p[12..44] == ParentBytes(a.parent) && q[12..44] == ParentBytes(b.parent);
    assert p[44..] == Body(a.entries) && q[44..] == Body(b.entries);
    U64(a.logicalSize);
    U64(b.logicalSize);
    U32(a.chunkSize);
    U32(b.chunkSize);
    BodyInjective(a.entries, b.entries);
  }

  method EncodeHeader(m: WireManifest) returns (out: Bytes)
    ensures out == Header(m)
  {
    out := MAGIC;
    out := out + LE(VERSION, 4);
    out := out + LE(0, 4);
    out := out + LE(m.chunkSize, 4);
    out := out + LE(|m.entries|, 4);
    out := out + LE(m.logicalSize, 8);
    out := out + ParentBytes(m.parent);
  }

  lemma Regroup(a: Bytes, b: Bytes, c: Bytes)
    ensures a + b + c == a + (b + c)
  {
  }

  lemma BodyNext(es: seq<Entry<Bytes>>, i: nat, header: Bytes)
    requires i < |es|
    ensures header + Body(es[..i]) + EntryBytes(es[i]) == header + Body(es[..i + 1])
  {
    assert es[..i + 1][..i] == es[..i];
    Regroup(header, Body(es[..i]), EntryBytes(es[i]));
  }

  method EncodeEntries(es: seq<Entry<Bytes>>, header: Bytes) returns (out: Bytes)
    ensures out == header + Body(es)
  {
    out := header;
    var i := 0;
    while i < |es|
      invariant 0 <= i <= |es| && out == header + Body(es[..i])
    {
      BodyNext(es, i, header);
      out := out + EntryBytes(es[i]);
      i := i + 1;
    }
    assert es[..i] == es;
  }

  ghost predicate HeaderOk(buf: Bytes) {
    |buf| >= HEADER_SIZE && buf[0..8] == MAGIC && FromLE(buf[8..12]) == VERSION
  }

  ghost function EntryCount(buf: Bytes): nat
    requires |buf| >= HEADER_SIZE
  {
    FromLE(buf[20..24])
  }

  function EntrySlice(buf: Bytes, i: nat): (b: Bytes)
    requires HEADER_SIZE + (i + 1) * ENTRY_SIZE <= |buf|
    ensures |b| == ENTRY_SIZE
  {
    buf[HEADER_SIZE + i * ENTRY_SIZE..HEADER_SIZE + (i + 1) * ENTRY_SIZE]
  }

  ghost predicate EntriesOk(buf: Bytes, count: nat)
    requires |buf| == HEADER_SIZE + count * ENTRY_SIZE
  {
    && (forall i: nat :: i < count ==> KindOk(EntrySlice(buf, i)))
    && (forall i: nat, j: nat :: i < j < count ==>
          EntryOf(EntrySlice(buf, i)).offset < EntryOf(EntrySlice(buf, j)).offset)
  }

  /** The buffers `Decode` takes: exactly sized, of known kinds, strictly
      sorted. */
  ghost predicate Accepted(buf: Bytes) {
    && HeaderOk(buf)
    && |buf| == HEADER_SIZE + EntryCount(buf) * ENTRY_SIZE
    && EntriesOk(buf, EntryCount(buf))
  }

  ghost predicate IsDecoded(buf: Bytes, m: WireManifest) {
    && Accepted(buf)
    && m.chunkSize == FromLE(buf[16..20])
    && m.logicalSize == FromLE(buf[24..32])
    && m.parent == (if buf[32..64] == Zeros(32) then None else Some(buf[32..64]))
    && |m.entries| == EntryCount(buf)
    && forall i :: 0 <= i < |m.entries| ==> m.entries[i] == EntryOf(EntrySlice(buf, i))
  }

  /** The first `i` entries. */
  ghost predicate DecodedTo(buf: Bytes, i: nat, entries: seq<Entry<Bytes>>) {
    && HEADER_SIZE + i * ENTRY_SIZE <= |buf| && |entries| == i && Sorted(entries)
    && forall k: nat :: k < i ==> KindOk(EntrySlice(buf, k)) && entries[k] == EntryOf(EntrySlice(buf, k))
  }

  lemma DecodedNext(buf: Bytes, i: nat, entries: seq<Entry<Bytes>>)
    requires DecodedTo(buf, i, entries) && HEADER_SIZE + (i + 1) * ENTRY_SIZE <= |buf| && KindOk(EntrySlice(buf, i))
    requires i > 0 ==> entries[i - 1].offset < EntryOf(EntrySlice(buf, i)).offset
    ensures DecodedTo(buf, i + 1, entries + [EntryOf(EntrySlice(buf, i))])
  {
  }

  lemma DecodedAll(buf: Bytes, count: nat, entries: seq<Entry<Bytes>>)
    requires |buf| == HEADER_SIZE + count * ENTRY_SIZE && DecodedTo(buf, count, entries)
    ensures EntriesOk(buf, count)
  {
    forall j: nat, k: nat | j < k < count
      ensures EntryOf(EntrySlice(buf, j)).offset < EntryOf(EntrySlice(buf, k)).offset
    {
      assert entries[j].offset < entries[k].offset;
    }
  }

  lemma NotAscending(buf: Bytes, count: nat, i: nat, entries: seq<Entry<Bytes>>)
    requires |buf| == HEADER_SIZE + count * ENTRY_SIZE && 0 < i < count && DecodedTo(buf, i, entries)
    requires EntryOf(EntrySlice(buf, i)).offset <= entries[i - 1].offset
    ensures !EntriesOk(buf, count)
  {
    assert EntryOf(EntrySlice(buf, i - 1)).offset >= EntryOf(EntrySlice(buf, i)).offset;
  }

  ghost predicate BadKindAt(buf: Bytes, i: nat) {
    HEADER_SIZE + (i + 1) * ENTRY_SIZE <= |buf| && buf[HEADER_SIZE + i * ENTRY_SIZE + 8] >= 2
  }

  ghost predicate UnsortedAt(buf: Bytes, i: nat) {
    && HEADER_SIZE + (i + 2) * ENTRY_SIZE <= |buf|
    && EntryOf(EntrySlice(buf, i + 1)).offset <= EntryOf(EntrySlice(buf, i)).offset
  }

  method DecodeEntries(buf: Bytes, count: nat) returns (r: Result<seq<Entry<Bytes>>, Corrupt>)
    requires |buf| == HEADER_SIZE + count * ENTRY_SIZE
    ensures r.Ok? <==> EntriesOk(buf, count)
    ensures r.Ok? ==> DecodedTo(buf, count, r.value)
    ensures r.Err? ==>
              || (r.error == BadKind && exists i: nat :: BadKindAt(buf, i))
              || (r.error == NotSorted && exists i: nat :: UnsortedAt(buf, i))
  {
    var entries: seq<Entry<Bytes>> := [];
    var i := 0;
    while i < count
      invariant 0 <= i <= count && DecodedTo(buf, i, entries)
    {
      var b := EntrySlice(buf, i);
      if !(b[8] == 0 || b[8] == 1) {
        assert BadKindAt(buf, i);
        return Err(BadKind);
      }
      var e := EntryOf(b);
      if i > 0 && e.offset <= entries[i - 1].offset {
        NotAscending(buf, count, i, entries);
        assert UnsortedAt(buf, i - 1);
        return Err(NotSorted);
      }
      DecodedNext(buf, i, entries);
      entries := entries + [e];
      i := i + 1;
    }
    DecodedAll(buf, count, entries);
    return Ok(entries);
  }

  /** Where the fields of a header are. */
  lemma Fields(a: Bytes, b: Bytes, c: Bytes, d: Bytes, e: Bytes, f: Bytes, g: Bytes, rest: Bytes)
    requires |a| == 8 && |b| == 4 && |c| == 4 && |d| == 4 && |e| == 4 && |f| == 8 && |g| == 32
    ensures var all := a + b + c + d + e + f + g + rest;
            && |all| == 64 + |rest| && all[0..8] == a && all[8..12] == b && all[16..20] == d && all[20..24] == e
            && all[24..32] == f && all[32..64] == g && all[64..] == rest
  {
  }

  lemma HeaderFields(m: WireManifest)
    requires Fits(m)
    ensures |Encoded(m)| == HEADER_SIZE + |Body(m.entries)|
    ensures HeaderOk(Encoded(m)) && EntryCount(Encoded(m)) == |m.entries|
    ensures FromLE(Encoded(m)[16..20]) == m.chunkSize && FromLE(Encoded(m)[24..32]) == m.logicalSize
    ensures Encoded(m)[32..64] == ParentBytes(m.parent) && Encoded(m)[64..] == Body(m.entries)
  {
    Fields(MAGIC, LE(VERSION, 4), LE(0, 4), LE(m.chunkSize, 4), LE(|m.entries|, 4), LE(m.logicalSize, 8),
           ParentBytes(m.parent), Body(m.entries));
    U32(VERSION);
    U32(m.chunkSize);
    U32(|m.entries|);
    U64(m.logicalSize);
  }

  lemma SliceOfRest(b: Bytes, h: nat, i: nat, j: nat)
    requires i <= j && h + j <= |b|
    ensures b[h..][i..j] == b[h + i..h + j]
  {
  }

  lemma SliceOfSlice(b: Bytes, h: nat, k: nat, i: nat, j: nat)
    requires i <= j <= k - h && h <= k <= |b|
    ensures b[h..k][i..j] == b[h + i..h + j]
  {
    var s, t := b[h..k][i..j], b[h + i..h + j];
    assert |s| == |t| && forall x :: 0 <= x < |t| ==> s[x] == t[x];
  }

  lemma EncodedSlice(m: WireManifest, i: nat)
    requires Fits(m) && i < |m.entries|
    ensures |Encoded(m)| == HEADER_SIZE + |m.entries| * ENTRY_SIZE
    ensures EntrySlice(Encoded(m), i) == EntryBytes(m.entries[i])
  {
    HeaderFields(m);
    BodyAt(m.entries, i);
    SliceOfRest(Encoded(m), HEADER_SIZE, ENTRY_SIZE * i, ENTRY_SIZE * i + ENTRY_SIZE);
  }

  lemma EncodedEntry(m: WireManifest, i: nat)
    requires Fits(m) && i < |m.entries|
    ensures |Encoded(m)| == HEADER_SIZE + |m.entries| * ENTRY_SIZE
    ensures EntrySlice(Encoded(m), i) == EntryBytes(m.entries[i])
    ensures KindOk(EntrySlice(Encoded(m), i)) && EntryOf(EntrySlice(Encoded(m), i)) == m.entries[i]
  {
    EncodedSlice(m, i);
    EntryRoundTrip(m.entries[i]);
  }

  /** What is encoded is accepted, and decodes to itself and nothing else. */
  lemma RoundTrip(m: WireManifest, n: WireManifest)
    requires Fits(m)
    ensures Accepted(Encoded(m))
    ensures IsDecoded(Encoded(m), n) <==> n == m
  {
    var b := Encoded(m);
    HeaderFields(m);
    BodyAt(m.entries, 0);
    forall i: nat | i < |m.entries| ensures KindOk(EntrySlice(b, i)) && EntryOf(EntrySlice(b, i)) == m.entries[i] {
      EncodedEntry(m, i);
    }
    if IsDecoded(b, n) {
      assert n.entries == m.entries;
    }
  }

  // ---- the format -------------------------------------------------------------------------

  ghost predicate IsZeros(b: Bytes) {
    forall i :: 0 <= i < |b| ==> b[i] == 0
  }

  /** The file of a manifest, byte by byte: eight bytes of magic, the version, four
      bytes of flags nobody reads, the chunk size, the number of entries, the disk's
      size, the parent's id or zeros, and the entries. */
  ghost predicate Layout(b: Bytes, m: WireManifest) {
    && |b| == 64 + 52 * |m.entries|
    && b[0..8] == [0x44, 0x53, 0x4b, 0x44, 0x4d, 0x41, 0x4e, 0x00]
    && IsLE(b, 8, 1, 4)
    && IsLE(b, 16, m.chunkSize, 4)
    && IsLE(b, 20, |m.entries|, 4)
    && IsLE(b, 24, m.logicalSize, 8)
    && (if m.parent.Some? then b[32..64] == m.parent.value && !IsZeros(b[32..64]) else IsZeros(b[32..64]))
    && forall i: nat :: i < |m.entries| ==> EntryLayout(b, 64 + 52 * i, m.entries[i])
  }

  lemma ZerosIff(b: Bytes)
    ensures IsZeros(b) <==> b == Zeros(|b|)
  {
  }

  lemma SliceLE(s: Bytes, b: Bytes, at: nat, from: nat, n: nat, width: nat)
    requires from + width <= |s| && at + |s| <= |b| && forall k: nat :: k < |s| ==> s[k] == b[at + k]
    ensures IsLE(s, from, n, width) <==> IsLE(b, at + from, n, width)
  {
    var part := s[from..from + width];
    assert part == b[at + from..at + from + width];
    ReadIff(s, from, n, width);
    ReadIff(b, at + from, n, width);
  }

  /** An entry's layout is that of its 52 bytes, wherever they are. */
  lemma LayoutMoves(s: Bytes, b: Bytes, at: nat, e: Entry<Bytes>)
    requires |s| == 52 && at + 52 <= |b| && s == b[at..at + 52]
    ensures EntryLayout(s, 0, e) <==> EntryLayout(b, at, e)
  {
    SliceOfSlice(b, at, at + 52, 12, 44);
    SliceLE(s, b, at, 0, e.offset, 8);
    SliceLE(s, b, at, 44, e.rawLen, 4);
    SliceLE(s, b, at, 48, e.compLen, 4);
  }

  /** The header's fields are read where they are laid out. */
  lemma HeaderReadIff(b: Bytes, m: WireManifest)
    requires |b| >= HEADER_SIZE
    ensures IsLE(b, 8, 1, 4) <==> FromLE(b[8..12]) == VERSION
    ensures IsLE(b, 16, m.chunkSize, 4) <==> FromLE(b[16..20]) == m.chunkSize
    ensures IsLE(b, 20, |m.entries|, 4) <==> FromLE(b[20..24]) == |m.entries|
    ensures IsLE(b, 24, m.logicalSize, 8) <==> FromLE(b[24..32]) == m.logicalSize
  {
    ReadIff(b, 8, 1, 4);
    ReadIff(b, 16, m.chunkSize, 4);
    ReadIff(b, 20, |m.entries|, 4);
    ReadIff(b, 24, m.logicalSize, 8);
  }

  lemma EntriesReadIff(b: Bytes, m: WireManifest)
    requires |b| == HEADER_SIZE + |m.entries| * ENTRY_SIZE
    ensures (forall i: nat :: i < |m.entries| ==> EntryLayout(b, 64 + 52 * i, m.entries[i])) <==>
            (forall i: nat :: i < |m.entries| ==>
               KindOk(EntrySlice(b, i)) && EntryOf(EntrySlice(b, i)) == m.entries[i])
  {
    forall i: nat | i < |m.entries|
      ensures EntryLayout(b, 64 + 52 * i, m.entries[i]) <==>
              KindOk(EntrySlice(b, i)) && EntryOf(EntrySlice(b, i)) == m.entries[i]
    {
      LayoutMoves(EntrySlice(b, i), b, 64 + 52 * i, m.entries[i]);
      EntryReadIff(EntrySlice(b, i), m.entries[i]);
    }
  }

  lemma SortedIff(b: Bytes, m: WireManifest)
    requires |b| == HEADER_SIZE + |m.entries| * ENTRY_SIZE
    ensures (forall i: nat :: i < |m.entries| ==>
               KindOk(EntrySlice(b, i)) && EntryOf(EntrySlice(b, i)) == m.entries[i]) ==>
              (Sorted(m.entries) <==> EntriesOk(b, |m.entries|))
  {
  }

  /** A buffer decodes to a manifest exactly if it is that manifest's file, whatever
      the bytes without meaning are. */
  lemma DecodedIffLayout(b: Bytes, m: WireManifest)
    ensures IsDecoded(b, m) <==> Layout(b, m) && Sorted(m.entries)
  {
    if |b| >= HEADER_SIZE {
      HeaderReadIff(b, m);
      ZerosIff(b[32..64]);
      if |b| == HEADER_SIZE + |m.entries| * ENTRY_SIZE {
        EntriesReadIff(b, m);
        SortedIff(b, m);
      }
    }
  }

  lemma FlagsAreZero(m: WireManifest)
    requires Fits(m)
    ensures |Encoded(m)| >= HEADER_SIZE && IsLE(Encoded(m), 12, 0, 4)
  {
    HeaderFields(m);
    var b := Encoded(m);
    assert b[12..16] == LE(0, 4) by {
      assert Header(m)[12..16] == LE(0, 4);
      assert b[12..16] == Header(m)[12..16];
    }
    WrittenIs(b, 12, 0, 4);
  }

  /** What is written is the manifest's file, with zeros where nothing is meant. */
  lemma EncodedIsLayout(m: WireManifest)
    requires Fits(m)
    ensures Layout(Encoded(m), m) && IsLE(Encoded(m), 12, 0, 4)
  {
    RoundTrip(m, m);
    DecodedIffLayout(Encoded(m), m);
    FlagsAreZero(m);
  }

  lemma BodyEntry(es: seq<Entry<Bytes>>, i: nat)
    requires (forall e :: e in es ==> EntryFits(e)) && i < |es|
    ensures |Body(es)| == 52 * |es| && EntryLayout(Body(es)[52 * i..52 * i + 52], 0, es[i])
  {
    BodyAt(es, i);
    EntryIsLaidOut(es[i]);
  }

  lemma RestLayout(b: Bytes, at: nat, body: Bytes, from: nat, e: Entry<Bytes>)
    requires at <= |b| && b[at..] == body && from + 52 <= |body| && EntryLayout(body[from..from + 52], 0, e)
    ensures EntryLayout(b, at + from, e)
  {
    SliceOfRest(b, at, from, from + 52);
    LayoutMoves(body[from..from + 52], b, at + from, e);
  }

  /** What is hashed into a layer's id: the disk's size, the chunk size, the parent's
      id or zeros, and the entries as in the file. */
  lemma PreimageIsLaidOut(m: WireManifest)
    requires Fits(m)
    ensures var b := Preimage(m);
            && |b| == 44 + 52 * |m.entries|
            && IsLE(b, 0, m.logicalSize, 8) && IsLE(b, 8, m.chunkSize, 4)
            && (if m.parent.Some? then b[12..44] == m.parent.value else IsZeros(b[12..44]))
            && forall i: nat :: i < |m.entries| ==> EntryLayout(b, 44 + 52 * i, m.entries[i])
  {
    var b := Preimage(m);
    Widths();
    BodyAt(m.entries, 0);
    assert b[0..8] == LE(m.logicalSize, 8) && b[8..12] == LE(m.chunkSize, 4);
    assert b[12..44] == ParentBytes(m.parent) && b[44..] == Body(m.entries);
    WrittenIs(b, 0, m.logicalSize, 8);
    WrittenIs(b, 8, m.chunkSize, 4);
    forall i: nat | i < |m.entries| ensures EntryLayout(b, 44 + 52 * i, m.entries[i]) {
      BodyEntry(m.entries, i);
      RestLayout(b, 44, Body(m.entries), 52 * i, m.entries[i]);
    }
  }

  /** Writes a manifest's file. */
  method Encode(m: WireManifest) returns (out: Bytes)
    ensures out == Encoded(m)
    ensures Fits(m) ==> Layout(out, m) && IsLE(out, 12, 0, 4)
  {
    out := EncodeHeader(m);
    out := EncodeEntries(m.entries, out);
    if Fits(m) { EncodedIsLayout(m); }
  }

  /** Reads one: it succeeds exactly on the file of a manifest with increasing
      offsets, and gives that manifest. */
  method Decode(buf: Bytes) returns (r: Result<WireManifest, Corrupt>)
    ensures r.Ok? <==> Accepted(buf)
    ensures r.Ok? ==> IsDecoded(buf, r.value) && Sorted(r.value.entries)
    ensures r.Ok? ==> Layout(buf, r.value)
    ensures r.Err? ==> forall m: WireManifest :: Sorted(m.entries) ==> !Layout(buf, m)
    ensures r == Err(ShortHeader) <==> |buf| < 64
    ensures r == Err(BadMagic) <==> |buf| >= 64 && buf[0..8] != [0x44, 0x53, 0x4b, 0x44, 0x4d, 0x41, 0x4e, 0x00]
    ensures r == Err(BadVersion) ==> |buf| >= 64 && !IsLE(buf, 8, 1, 4)
    ensures r == Err(BadSize) ==> HeaderOk(buf) && |buf| != 64 + 52 * EntryCount(buf)
    ensures r == Err(BadKind) ==> HeaderOk(buf) && exists i: nat :: BadKindAt(buf, i)
    ensures r == Err(NotSorted) ==> HeaderOk(buf) && exists i: nat :: UnsortedAt(buf, i)
  {
    forall m: WireManifest ensures IsDecoded(buf, m) <==> Layout(buf, m) && Sorted(m.entries) {
      DecodedIffLayout(buf, m);
    }
    if |buf| >= HEADER_SIZE { ReadIff(buf, 8, 1, 4); }
    if |buf| < HEADER_SIZE { return Err(ShortHeader); }
    if buf[0..8] != MAGIC { return Err(BadMagic); }
    if FromLE(buf[8..12]) != VERSION { return Err(BadVersion); }
    var count := FromLE(buf[20..24]);
    if |buf| != HEADER_SIZE + count * ENTRY_SIZE { return Err(BadSize); }
    var entries := DecodeEntries(buf, count);
    if entries.Err? { return Err(entries.error); }
    var parent := if buf[32..64] == Zeros(32) then None else Some(buf[32..64]);
    return Ok(Manifest(FromLE(buf[16..20]), FromLE(buf[24..32]), parent, entries.value));
  }
}
