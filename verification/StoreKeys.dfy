/** The keys of the object store: checkpoints, layer manifests and chunks. */
module StoreKeys {
  import opened Wrappers

  function StripPrefix(s: string, p: string): (r: Option<string>)
    ensures r.Some? <==> p <= s
    ensures r.Some? ==> s == p + r.value
  {
    if p <= s then Some(s[|p|..]) else None
  }

  function StripSuffix(s: string, p: string): (r: Option<string>)
    ensures r.Some? <==> |p| <= |s| && s[|s| - |p|..] == p
    ensures r.Some? ==> s == r.value + p
  {
    if |p| <= |s| && s[|s| - |p|..] == p then Some(s[..|s| - |p|]) else None
  }

  /** What is before and after the first `c`. */
  function SplitOnce(s: string, c: char): (r: Option<(string, string)>)
    ensures r.Some? ==> s == r.value.0 + [c] + r.value.1 && c !in r.value.0
    ensures r.None? <==> c !in s
  {
    if |s| == 0 then None
    else if s[0] == c then Some(("", s[1..]))
    else
      match SplitOnce(s[1..], c)
      case None => None
      case Some((a, b)) => assert s == ([s[0]] + a) + [c] + b; Some(([s[0]] + a, b))
  }

  lemma {:induction false} SplitOnceAt(a: string, c: char, b: string)
    requires c !in a
    ensures SplitOnce(a + [c] + b, c) == Some((a, b))
  {
    var s := a + [c] + b;
    if |a| == 0 {
      assert s[1..] == b;
    } else {
      SplitOnceAt(a[1..], c, b);
      assert s[1..] == a[1..] + [c] + b;
      assert a == [a[0]] + a[1..];
    }
  }

  /** All that is between the `c`s. */
  function Split(s: string, c: char): (r: seq<string>)
    ensures |r| > 0
    decreases |s|
  {
    match SplitOnce(s, c)
    case None => [s]
    case Some((a, b)) => [a] + Split(b, c)
  }

  // ---- checkpoints -----------------------------------------------------------------

  const SNAPSHOTS := "snapshots/"
  const LAYERS := "layers/"
  const CHUNKS := "chunks/"
  const HEAD := "head.json"
  const MANIFEST := ".manifest"
  const ZST := ".zst"

  /** The epoch, "<id>/<epoch>", and the file a checkpoint's object is. */
  function SplitSnapshotKey(key: string): (r: Option<(string, string)>) {
    match StripPrefix(key, SNAPSHOTS)
    case None => None
    case Some(rest) =>
      match SplitOnce(rest, '/')
      case None => None
      case Some((id, rest2)) =>
        match SplitOnce(rest2, '/')
        case None => None
        case Some((epoch, file)) =>
          if id == "" || epoch == "" || file == "" then None else Some((id + "/" + epoch, file))
  }

  function SnapshotKey(epoch: string, file: string): string {
    SNAPSHOTS + epoch + "/" + file
  }

  /** A checkpoint's object has no other key. */
  lemma SnapshotKeyIs(key: string)
    ensures SplitSnapshotKey(key).Some? ==>
              var (epoch, file) := SplitSnapshotKey(key).value; key == SnapshotKey(epoch, file) && file != ""
  {
    if SplitSnapshotKey(key).Some? {
      var rest := StripPrefix(key, SNAPSHOTS).value;
      var (id, rest2) := SplitOnce(rest, '/').value;
      var (epoch, file) := SplitOnce(rest2, '/').value;
      assert rest == id + "/" + (epoch + "/" + file) == (id + "/" + epoch) + "/" + file;
      assert key == SNAPSHOTS + ((id + "/" + epoch) + "/" + file) == SNAPSHOTS + (id + "/" + epoch) + "/" + file;
    }
  }

  /** The epoch of a checkpoint's object is a name and a number without a slash. */
  lemma EpochIs(key: string) returns (id: string, epoch: string)
    requires SplitSnapshotKey(key).Some?
    ensures '/' !in id && '/' !in epoch && id != "" && epoch != ""
    ensures SplitSnapshotKey(key).value.0 == id + "/" + epoch
  {
    var rest := StripPrefix(key, SNAPSHOTS).value;
    id := SplitOnce(rest, '/').value.0;
    epoch := SplitOnce(SplitOnce(rest, '/').value.1, '/').value.0;
  }

  lemma SnapshotKeySplits(id: string, epoch: string, file: string)
    requires '/' !in id && '/' !in epoch && id != "" && epoch != "" && file != ""
    ensures SplitSnapshotKey(SnapshotKey(id + "/" + epoch, file)) == Some((id + "/" + epoch, file))
  {
    var rest2 := epoch + "/" + file;
    var rest := id + "/" + rest2;
    assert SnapshotKey(id + "/" + epoch, file) == SNAPSHOTS + rest;
    assert (SNAPSHOTS + rest)[|SNAPSHOTS|..] == rest;
    SplitOnceAt(id, '/', rest2);
    SplitOnceAt(epoch, '/', file);
  }

  predicate IsDigits(s: string) {
    forall k :: 0 <= k < |s| ==> '0' <= s[k] <= '9'
  }

  predicate IsHeadKey(key: string) {
    match StripPrefix(key, SNAPSHOTS)
    case None => false
    case Some(rest) =>
      var parts := Split(rest, '/');
      |parts| == 3 && parts[2] == HEAD && parts[0] != "" && parts[1] != "" && IsDigits(parts[1])
  }

  /** The key of a head is that of its epoch's head.json. */
  lemma HeadKeySplits(key: string)
    requires IsHeadKey(key)
    ensures SplitSnapshotKey(key).Some? && SplitSnapshotKey(key).value.1 == HEAD
  {
    var rest := StripPrefix(key, SNAPSHOTS).value;
    var (id, rest2) := SplitOnce(rest, '/').value;
    var parts := Split(rest, '/');
    assert parts == [id] + Split(rest2, '/');
    var (epoch, file) := SplitOnce(rest2, '/').value;
    assert Split(rest2, '/') == [epoch] + Split(file, '/');
    assert parts[2] == Split(file, '/')[0];
    assert |Split(file, '/')| == 1;
  }

  lemma StripOf(p: string, rest: string)
    ensures StripPrefix(p + rest, p) == Some(rest)
  {
  }

  lemma SplitLast(s: string, c: char)
    requires c !in s
    ensures Split(s, c) == [s]
  {
  }

  lemma SplitFirst(a: string, c: char, b: string)
    requires c !in a
    ensures Split(a + [c] + b, c) == [a] + Split(b, c)
  {
    SplitOnceAt(a, c, b);
  }

  lemma SplitThree(a: string, b: string, d: string, c: char)
    requires c !in a && c !in b && c !in d
    ensures Split(a + [c] + (b + [c] + d), c) == [a, b, d]
  {
    SplitLast(d, c);
    SplitFirst(b, c, d);
    SplitFirst(a, c, b + [c] + d);
  }

  /** A head's key is "snapshots/<id>/<number>/head.json", */
  lemma HeadKeyOf(id: string, epoch: string)
    requires '/' !in id && '/' !in epoch
    ensures IsHeadKey("snapshots/" + (id + "/" + (epoch + "/" + "head.json"))) <==>
            id != "" && epoch != "" && forall k :: 0 <= k < |epoch| ==> '0' <= epoch[k] <= '9'
  {
    var rest := id + "/" + (epoch + "/" + "head.json");
    assert '/' !in "head.json";
    SplitThree(id, epoch, "head.json", '/');
    StripOf("snapshots/", rest);
  }

  /** and nothing else is. */
  lemma HeadKeyIs(key: string) returns (id: string, epoch: string)
    requires IsHeadKey(key)
    ensures '/' !in id && '/' !in epoch && key == "snapshots/" + (id + "/" + (epoch + "/" + "head.json"))
  {
    var rest := StripPrefix(key, SNAPSHOTS).value;
    id := SplitOnce(rest, '/').value.0;
    var rest2 := SplitOnce(rest, '/').value.1;
    assert Split(rest, '/') == [id] + Split(rest2, '/');
    epoch := SplitOnce(rest2, '/').value.0;
    var file := SplitOnce(rest2, '/').value.1;
    assert Split(rest2, '/') == [epoch] + Split(file, '/');
    assert |Split(file, '/')| == 1 && Split(rest, '/')[2] == file;
  }

  // ---- layers and chunks -----------------------------------------------------------

  function LayerKey(id: string): string {
    LAYERS + id + MANIFEST
  }

  function LayerIdOfKey(key: string): (r: Option<string>)
    ensures r.Some? ==> key == LayerKey(r.value)
  {
    match StripPrefix(key, LAYERS)
    case None => None
    case Some(rest) => StripSuffix(rest, MANIFEST)
  }

  lemma LayerKeySplits(id: string)
    ensures LayerIdOfKey(LayerKey(id)) == Some(id)
  {
    var rest := id + MANIFEST;
    assert LayerKey(id) == LAYERS + rest;
    assert (LAYERS + rest)[|LAYERS|..] == rest;
    assert rest[|id|..] == MANIFEST && rest[..|id|] == id;
  }

  /** The chunk an object is: its shard must be the front of its hash. */
  function ChunkHexOfKey(key: string): (r: Option<string>) {
    match StripPrefix(key, CHUNKS)
    case None => None
    case Some(rest) =>
      match SplitOnce(rest, '/')
      case None => None
      case Some((shard, file)) =>
        match StripSuffix(file, ZST)
        case None => None
        case Some(hex) => if |hex| != 64 || !(shard <= hex) then None else Some(hex)
  }

  /** A chunk's key with a shard of `n` digits, as far as the hash has them. */
  function ShardedKey(hex: string, n: nat): string {
    CHUNKS + (if n <= |hex| then hex[..n] else hex) + "/" + hex + ZST
  }

  /** The key a chunk is stored under. */
  function ChunkKey(hex: string): string {
    ShardedKey(hex, 2)
  }

  lemma ShardedKeySplits(hex: string, n: nat)
    requires |hex| == 64 && n <= 64 && '/' !in hex[..n]
    ensures ChunkHexOfKey(ShardedKey(hex, n)) == Some(hex)
  {
    var file := hex + ZST;
    var rest := hex[..n] + "/" + file;
    assert ShardedKey(hex, n) == CHUNKS + rest;
    assert (CHUNKS + rest)[|CHUNKS|..] == rest;
    SplitOnceAt(hex[..n], '/', file);
    var got := StripSuffix(file, ZST);
    assert file == got.value + ZST && |got.value| == |hex|;
    assert got.value == file[..64] == hex;
  }

  lemma ChunkKeySplits(hex: string)
    requires |hex| == 64 && '/' !in hex
    ensures ChunkHexOfKey(ChunkKey(hex)) == Some(hex)
  {
    ShardedKeySplits(hex, 2);
  }

  lemma ShardOfKey(key: string) returns (n: nat)
    requires ChunkHexOfKey(key).Some?
    ensures var hex := ChunkHexOfKey(key).value;
            |hex| == 64 && n <= 64 && '/' !in hex[..n] && key == ShardedKey(hex, n)
  {
    var rest := StripPrefix(key, CHUNKS).value;
    var (shard, file) := SplitOnce(rest, '/').value;
    var hex := ChunkHexOfKey(key).value;
    n := |shard|;
    assert shard == hex[..n];
    assert key == CHUNKS + (shard + "/" + (hex + ZST)) == CHUNKS + shard + "/" + hex + ZST;
  }

  /** A key is taken for the chunk `hex` if and only if it is the hash behind some
      front of it, of any length. */
  lemma ChunkKeyIff(key: string, hex: string)
    ensures ChunkHexOfKey(key) == Some(hex) <==>
            |hex| == 64 && exists n: nat :: n <= 64 && '/' !in hex[..n] && key == ShardedKey(hex, n)
  {
    if ChunkHexOfKey(key) == Some(hex) {
      var n := ShardOfKey(key);
    }
    if n: nat :| |hex| == 64 && n <= 64 && '/' !in hex[..n] && key == ShardedKey(hex, n) {
      ShardedKeySplits(hex, n);
    }
  }

  /** Of those keys the chunk's own has a shard of two digits, and no other is. */
  lemma OwnShardIff(hex: string, n: nat)
    requires |hex| == 64 && n <= 64
    ensures ShardedKey(hex, n) == ChunkKey(hex) <==> n == 2
  {
    assert |ShardedKey(hex, n)| == |CHUNKS| + n + 1 + 64 + |ZST|;
  }

  /** A key without a shard is taken for a chunk. */
  lemma EmptyShardIsTaken(hex: string)
    requires |hex| == 64
    ensures ChunkHexOfKey(CHUNKS + "/" + hex + ZST) == Some(hex) && CHUNKS + "/" + hex + ZST != ChunkKey(hex)
  {
    ShardedKeySplits(hex, 0);
    OwnShardIff(hex, 0);
    assert CHUNKS + hex[..0] == CHUNKS;
  }

  /** The keys of checkpoints, layers and chunks are apart. */
  lemma KindsApart(key: string)
    ensures SplitSnapshotKey(key).Some? ==> LayerIdOfKey(key).None? && ChunkHexOfKey(key).None?
    ensures LayerIdOfKey(key).Some? ==> ChunkHexOfKey(key).None?
  {
    assert SNAPSHOTS[0] == 's' && LAYERS[0] == 'l' && CHUNKS[0] == 'c';
    assert SNAPSHOTS <= key ==> key[0] == 's';
    assert LAYERS <= key ==> key[0] == 'l';
    assert CHUNKS <= key ==> key[0] == 'c';
  }
}
