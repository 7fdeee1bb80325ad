/** The actor among the threads that admit chunks, seal, pin and evict. They
    look at the chunk files directly and talk to the actor over one queue; the
    files an eviction unlinks go one by one, while the others run on. */
module CacheRuns {
  import opened Wrappers
  import opened Layers
  import opened CacheBudget

  /** Where a batch admission is: `At(i)` before it looks for chunk `i`'s file,
      `Present`/`Absent` after, `Renamed` with the file in place and the actor
      not told yet. */
  datatype Pc = Start | Waiting | At(i: nat) | Present(i: nat) | Absent(i: nat) | Renamed(i: nat)

  /** A batch admission, held or not. `live` is set while the hold it waited
      for has not been released. A single admission is a batch of one. */
  datatype Batch = Batch(hold: Option<nat>, chunks: seq<(Digest, nat)>, pc: Pc, live: bool)

  datatype World = World(files: set<Digest>, queue: seq<Msg>, actor: State, unlinking: seq<Digest>,
                         batches: map<nat, Batch>)

  datatype Step =
    | Begin(thread: nat, hold: Option<nat>, chunks: seq<(Digest, nat)>)
    | Advance(thread: nat)
    | Send(m: Msg)
    | HandleNext
    | Unlink

  ghost function Hashes(chunks: seq<(Digest, nat)>): (r: seq<Digest>)
    ensures |r| == |chunks| && forall i :: 0 <= i < |r| ==> r[i] == chunks[i].0
  {
    seq(|chunks|, i requires 0 <= i < |chunks| => chunks[i].0)
  }

  ghost predicate PcOk(b: Batch) {
    match b.pc
    case Start => true
    case Waiting => b.hold.Some?
    case At(i) => i <= |b.chunks|
    case Present(i) => i < |b.chunks|
    case Absent(i) => i < |b.chunks|
    case Renamed(i) => i < |b.chunks|
  }

  // ---- steps ---------------------------------------------------------------------------

  ghost predicate AdvanceTo(w: World, t: nat, w': World) {
    t in w.batches && PcOk(w.batches[t]) &&
    var b := w.batches[t];
    match b.pc
    case Start =>
      if b.hold.Some? then
        w' == w.(queue := w.queue + [Hold(b.hold.value, Hashes(b.chunks), t)],
                 batches := w.batches[t := b.(pc := Waiting)])
      else
        w' == w.(batches := w.batches[t := b.(pc := At(0))])
    case Waiting => false
    case At(i) =>
      i < |b.chunks| &&
      w' == w.(batches := w.batches[t := b.(pc := if b.chunks[i].0 in w.files then Present(i) else Absent(i))])
    case Present(i) =>
      w' == w.(queue := w.queue + [if b.hold.Some? then Admit(b.chunks[i].0, b.chunks[i].1) else Touch(b.chunks[i].0)],
               batches := w.batches[t := b.(pc := At(i + 1))])
    case Absent(i) =>
      w' == w.(files := w.files + {b.chunks[i].0}, batches := w.batches[t := b.(pc := Renamed(i))])
    case Renamed(i) =>
      w' == w.(queue := w.queue + [Admit(b.chunks[i].0, b.chunks[i].1)], batches := w.batches[t := b.(pc := At(i + 1))])
  }

  /** The batches after the actor handled `m`: a hold answers its batch, a
      release ends what its hold promised. */
  ghost function Answered(batches: map<nat, Batch>, m: Msg): map<nat, Batch> {
    match m
    case Hold(_, _, t) => if t in batches then batches[t := batches[t].(pc := At(0), live := true)] else batches
    case Release(id) =>
      map t | t in batches :: if batches[t].hold == Some(id) then batches[t].(live := false) else batches[t]
    case _ => batches
  }

  ghost predicate HandleTo(w: World, w': World) {
    |w.queue| > 0 && w.unlinking == [] &&
    exists victims: Lru ::
      Handled(w.actor, w.queue[0], w'.actor, victims)
      && w'.unlinking == Hashes(victims)
      && w'.queue == w.queue[1..]
      && w'.files == w.files
      && w'.batches == Answered(w.batches, w.queue[0])
  }

  ghost predicate StepTo(w: World, s: Step, w': World) {
    match s
    case Begin(t, hold, chunks) =>
      t !in w.batches && w' == w.(batches := w.batches[t := Batch(hold, chunks, Start, false)])
    case Advance(t) => AdvanceTo(w, t, w')
    case Send(m) =>
      (m.Touch? || m.Pin? || m.Release? || m.EvictAll? || m.EvictToBudget?) && w' == w.(queue := w.queue + [m])
    case HandleNext => HandleTo(w, w')
    case Unlink =>
      |w.unlinking| > 0 && w' == w.(unlinking := w.unlinking[1..], files := w.files - {w.unlinking[0]})
  }

  // ---- what holds throughout --------------------------------------------------------------

  /** Whether the batch is done with chunk `j`, as far as its file goes. */
  ghost predicate DoneWith(b: Batch, j: nat) {
    match b.pc
    case Start => false
    case Waiting => false
    case At(i) => j < i
    case Present(i) => j <= i
    case Absent(i) => j < i
    case Renamed(i) => j <= i
  }

  ghost predicate BatchOk(w: World, b: Batch) {
    && PcOk(b)
    && (b.live ==>
          && b.hold.Some? && !b.pc.Start? && !b.pc.Waiting?
          && b.hold.value in w.actor.holds
          && (forall j :: 0 <= j < |b.chunks| ==> b.chunks[j].0 in w.actor.holds[b.hold.value])
          && (forall j :: 0 <= j < |b.chunks| && DoneWith(b, j) ==> b.chunks[j].0 in w.files))
  }

  ghost predicate Renaming(b: Batch, h: Digest) {
    b.pc.Renamed? && b.pc.i < |b.chunks| && b.chunks[b.pc.i].0 == h
  }

  /** A file the actor will hear of: its admission is queued, or about to be. */
  ghost predicate Announced(w: World, h: Digest) {
    || (exists k :: 0 <= k < |w.queue| && w.queue[k].Admit? && w.queue[k].hash == h)
    || (exists t :: t in w.batches && Renaming(w.batches[t], h))
  }

  /** The hold requests on the queue are of distinct batches that wait for them. */
  ghost predicate HoldsAsked(queue: seq<Msg>, batches: map<nat, Batch>) {
    && (forall k :: 0 <= k < |queue| && queue[k].Hold? ==>
          && queue[k].reply in batches
          && batches[queue[k].reply].pc.Waiting?
          && batches[queue[k].reply].hold == Some(queue[k].id)
          && queue[k].hashes == Hashes(batches[queue[k].reply].chunks))
    && (forall j, k :: 0 <= j < k < |queue| && queue[j].Hold? && queue[k].Hold? ==> queue[j].reply != queue[k].reply)
  }

  ghost predicate Inv(w: World) {
    && CacheBudget.Inv(w.actor)
    && (forall h :: h in w.unlinking ==> !Wanted(w.actor, h))
    && (forall t :: t in w.batches ==> BatchOk(w, w.batches[t]))
    && HoldsAsked(w.queue, w.batches)
    && (forall k :: 0 <= k < |w.queue| ==> !w.queue[k].Remove?)
    && (forall h :: h in w.files ==> Known(w.actor, h) || h in w.unlinking || Announced(w, h))
  }

  lemma AnnouncedStays(w: World, w': World, h: Digest)
    requires Announced(w, h)
    requires w.queue <= w'.queue
    requires forall t :: t in w.batches && Renaming(w.batches[t], h) ==>
               (t in w'.batches && Renaming(w'.batches[t], h))
               || (exists k :: 0 <= k < |w'.queue| && w'.queue[k].Admit? && w'.queue[k].hash == h)
    ensures Announced(w', h)
  {
    if k :| 0 <= k < |w.queue| && w.queue[k].Admit? && w.queue[k].hash == h {
      assert w'.queue[k] == w.queue[k];
    } else {
      var t :| t in w.batches && Renaming(w.batches[t], h);
    }
  }

  lemma AdvanceKeepsFiles(w: World, t: nat, w': World)
    requires Inv(w) && AdvanceTo(w, t, w')
    ensures forall h :: h in w'.files ==> Known(w'.actor, h) || h in w'.unlinking || Announced(w', h)
  {
    var b := w.batches[t];
    if b.pc.Renamed? {
      assert w'.queue[|w.queue|] == Admit(b.chunks[b.pc.i].0, b.chunks[b.pc.i].1);
    }
    if b.pc.Absent? {
      assert Renaming(w'.batches[t], b.chunks[b.pc.i].0);
    }
    forall h | h in w'.files ensures Known(w'.actor, h) || h in w'.unlinking || Announced(w', h) {
      if h in w.files && Announced(w, h) {
        AnnouncedStays(w, w', h);
      }
    }
  }

  lemma AdvanceKeepsBatch(w: World, t: nat, w': World, u: nat)
    requires AdvanceTo(w, t, w') && u in w'.batches && BatchOk(w, w.batches[u])
    ensures BatchOk(w', w'.batches[u])
  {
  }

  lemma AdvanceKeepsQueue(w: World, t: nat, w': World)
    requires AdvanceTo(w, t, w') && HoldsAsked(w.queue, w.batches)
    ensures HoldsAsked(w'.queue, w'.batches)
  {
    var b := w.batches[t];
    if b.pc.Start? && b.hold.Some? {
      assert forall k :: 0 <= k < |w.queue| ==> w'.queue[k] == w.queue[k];
    }
  }

  lemma AdvanceKeeps(w: World, t: nat, w': World)
    requires Inv(w) && AdvanceTo(w, t, w')
    ensures Inv(w')
  {
    AdvanceKeepsFiles(w, t, w');
    AdvanceKeepsQueue(w, t, w');
    forall u | u in w'.batches ensures BatchOk(w', w'.batches[u]) {
      AdvanceKeepsBatch(w, t, w', u);
    }
  }

  lemma UnlinkKeeps(w: World, w': World)
    requires Inv(w) && StepTo(w, Unlink, w')
    ensures Inv(w')
  {
    var gone := w.unlinking[0];
    assert !Wanted(w.actor, gone);
    forall t | t in w'.batches ensures BatchOk(w', w'.batches[t]) {
      var b := w.batches[t];
      assert BatchOk(w, b);
      forall j | 0 <= j < |b.chunks| && DoneWith(b, j) && b.live ensures b.chunks[j].0 in w'.files {
        assert Wanted(w.actor, b.chunks[j].0);
      }
    }
    forall h | h in w'.files ensures Known(w'.actor, h) || h in w'.unlinking || Announced(w', h) {
      if Announced(w, h) { AnnouncedStays(w, w', h); }
    }
  }

  lemma SendKeeps(w: World, m: Msg, w': World)
    requires Inv(w) && StepTo(w, Send(m), w')
    ensures Inv(w')
  {
    forall t | t in w'.batches ensures BatchOk(w', w'.batches[t]) {
      assert BatchOk(w, w.batches[t]);
    }
    forall h | h in w'.files ensures Known(w'.actor, h) || h in w'.unlinking || Announced(w', h) {
      if Announced(w, h) { AnnouncedStays(w, w', h); }
    }
  }

  lemma BeginKeeps(w: World, t: nat, hold: Option<nat>, chunks: seq<(Digest, nat)>, w': World)
    requires Inv(w) && StepTo(w, Begin(t, hold, chunks), w')
    ensures Inv(w')
  {
    forall u | u in w'.batches ensures BatchOk(w', w'.batches[u]) {
      if u != t { assert BatchOk(w, w.batches[u]); }
    }
    forall h | h in w'.files ensures Known(w'.actor, h) || h in w'.unlinking || Announced(w', h) {
      if Announced(w, h) { AnnouncedStays(w, w', h); }
    }
  }

  lemma AnsweredKeys(batches: map<nat, Batch>, m: Msg)
    ensures Answered(batches, m).Keys == batches.Keys
    ensures forall t :: t in batches && !(m.Hold? && m.reply == t) ==>
              Answered(batches, m)[t].pc == batches[t].pc
    ensures forall t :: t in batches ==>
              Answered(batches, m)[t].hold == batches[t].hold && Answered(batches, m)[t].chunks == batches[t].chunks
  {
  }

  lemma HandleAnnounces(w: World, w': World, h: Digest)
    requires HoldsAsked(w.queue, w.batches) && HandleTo(w, w') && Announced(w, h)
    ensures (w.queue[0].Admit? && w.queue[0].hash == h) || Announced(w', h)
  {
    AnsweredKeys(w.batches, w.queue[0]);
    if k :| 0 <= k < |w.queue| && w.queue[k].Admit? && w.queue[k].hash == h {
      if k > 0 { assert w'.queue[k - 1] == w.queue[k]; }
    } else {
      var t :| t in w.batches && Renaming(w.batches[t], h);
      assert Renaming(w'.batches[t], h);
    }
  }

  /** What a message does to the actor, as far as its clients can tell. */
  lemma HandleActor(w: World, w': World)
    requires CacheBudget.Inv(w.actor) && HandleTo(w, w')
    ensures CacheBudget.Inv(w'.actor)
    ensures w'.actor.pins == if w.queue[0].Pin? then w.queue[0].keep else w.actor.pins
    ensures w'.actor.holds == HoldsAfter(w.actor.holds, w.queue[0])
    ensures forall h :: h in w'.unlinking ==> !Wanted(w'.actor, h)
  {
    var victims: Lru :| Handled(w.actor, w.queue[0], w'.actor, victims) && w'.unlinking == Hashes(victims);
    HandleKeeps(w.actor, w.queue[0], w'.actor, victims);
    forall h | h in w'.unlinking ensures Has(victims, h) {
      var i :| 0 <= i < |victims| && Hashes(victims)[i] == h;
    }
  }

  lemma HandleKeepsFiles(w: World, w': World)
    requires Inv(w) && HandleTo(w, w')
    ensures forall h :: h in w'.files ==> Known(w'.actor, h) || h in w'.unlinking || Announced(w', h)
  {
    var m := w.queue[0];
    var victims: Lru :| Handled(w.actor, m, w'.actor, victims) && w'.unlinking == Hashes(victims);
    HandleKeeps(w.actor, m, w'.actor, victims);
    forall h | h in w'.files ensures Known(w'.actor, h) || h in w'.unlinking || Announced(w', h) {
      if Has(victims, h) {
        var i :| 0 <= i < |victims| && victims[i].0 == h;
        assert w'.unlinking[i] == h;
      } else if Announced(w, h) {
        HandleAnnounces(w, w', h);
      }
    }
  }

  lemma HandleKeepsBatch(w: World, w': World, t: nat)
    requires |w.queue| > 0 && HoldsAsked(w.queue, w.batches) && t in w.batches && BatchOk(w, w.batches[t])
    requires w'.files == w.files && w'.batches == Answered(w.batches, w.queue[0])
    requires w'.actor.holds == HoldsAfter(w.actor.holds, w.queue[0])
    ensures t in w'.batches && BatchOk(w', w'.batches[t])
  {
    var m, b, b' := w.queue[0], w.batches[t], w'.batches[t];
    if b'.live {
      if m.Hold? && m.reply == t {
        assert m.hashes == Hashes(b.chunks);
        assert forall j :: 0 <= j < |b.chunks| ==> b.chunks[j].0 == m.hashes[j];
      } else {
        assert b' == b && !(m.Release? && b.hold == Some(m.id));
        assert b.hold.value in w'.actor.holds && w.actor.holds[b.hold.value] <= w'.actor.holds[b.hold.value];
      }
    }
  }

  lemma HandleKeepsQueue(w: World, w': World)
    requires HandleTo(w, w') && HoldsAsked(w.queue, w.batches)
    requires forall k :: 0 <= k < |w.queue| ==> !w.queue[k].Remove?
    ensures HoldsAsked(w'.queue, w'.batches)
    ensures forall k :: 0 <= k < |w'.queue| ==> !w'.queue[k].Remove?
  {
    AnsweredKeys(w.batches, w.queue[0]);
    assert forall k :: 0 <= k < |w'.queue| ==> w'.queue[k] == w.queue[k + 1];
  }

  lemma HandleKeepsWorld(w: World, w': World)
    requires Inv(w) && HandleTo(w, w')
    ensures Inv(w')
  {
    HandleKeepsFiles(w, w');
    HandleActor(w, w');
    HandleKeepsQueue(w, w');
    AnsweredKeys(w.batches, w.queue[0]);
    forall t | t in w'.batches ensures BatchOk(w', w'.batches[t]) {
      HandleKeepsBatch(w, w', t);
    }
  }

  /** Every step of every thread and of the actor keeps the world sound. */
  lemma StepKeeps(w: World, s: Step, w': World)
    requires Inv(w) && StepTo(w, s, w')
    ensures Inv(w')
  {
    match s
    case Begin(t, hold, chunks) => BeginKeeps(w, t, hold, chunks, w');
    case Advance(t) => AdvanceKeeps(w, t, w');
    case Send(m) => SendKeeps(w, m, w');
    case HandleNext => HandleKeepsWorld(w, w');
    case Unlink => UnlinkKeeps(w, w');
  }

  // ---- runs ------------------------------------------------------------------------------------

  /** The cache as it opens: the actor knows the files there are. */
  ghost predicate Opened(w: World) {
    && CacheBudget.Inv(w.actor) && w.actor.pins == {} && w.actor.holds == map[]
    && (forall h :: h in w.files ==> Has(w.actor.lru, h))
    && w.queue == [] && w.unlinking == [] && w.batches == map[]
  }

  ghost predicate IsRun(ws: seq<World>, steps: seq<Step>) {
    && |ws| == |steps| + 1
    && forall i :: 0 <= i < |steps| ==> StepTo(ws[i], steps[i], ws[i + 1])
  }

  lemma {:induction false} RunKeeps(ws: seq<World>, steps: seq<Step>, n: nat)
    requires IsRun(ws, steps) && Inv(ws[0]) && n < |ws|
    ensures Inv(ws[n])
  {
    if n > 0 {
      RunKeeps(ws, steps, n - 1);
      StepKeeps(ws[n - 1], steps[n - 1], ws[n]);
    }
  }

  /** In every run, a chunk that a batch has handled under a hold keeps its file
      until that hold is released. */
  lemma HeldChunkStays(ws: seq<World>, steps: seq<Step>, n: nat, t: nat, j: nat)
    requires IsRun(ws, steps) && Opened(ws[0]) && n < |ws|
    requires t in ws[n].batches && ws[n].batches[t].live
    requires j < |ws[n].batches[t].chunks| && DoneWith(ws[n].batches[t], j)
    ensures ws[n].batches[t].chunks[j].0 in ws[n].files
    ensures Wanted(ws[n].actor, ws[n].batches[t].chunks[j].0)
  {
    assert Inv(ws[0]);
    RunKeeps(ws, steps, n);
    assert BatchOk(ws[n], ws[n].batches[t]);
  }

  ghost predicate PinComes(queue: seq<Msg>, h: Digest, id: nat, k: nat) {
    && k < |queue| && queue[k].Pin? && h in queue[k].keep
    && forall j :: 0 <= j < k ==> queue[j] != Release(id)
  }

  /** A file that stays past its hold: it is pinned, or a pin that names it is
      queued before any release of the hold it is under. */
  ghost predicate Secure(w: World, h: Digest, id: nat) {
    && h in w.files && h !in w.unlinking
    && (h in w.actor.pins ||
        (id in w.actor.holds && h in w.actor.holds[id] && exists k: nat :: PinComes(w.queue, h, id, k)))
  }

  /** A step that takes the chunk's pin away. */
  ghost predicate Unpins(w: World, s: Step, h: Digest) {
    s.HandleNext? && |w.queue| > 0 && w.queue[0].Pin? && h !in w.queue[0].keep && h in w.actor.pins
  }

  lemma PinComesLater(queue: seq<Msg>, queue': seq<Msg>, h: Digest, id: nat, k: nat)
    requires PinComes(queue, h, id, k) && queue <= queue'
    ensures PinComes(queue', h, id, k)
  {
    assert forall j :: 0 <= j <= k ==> queue'[j] == queue[j];
  }

  lemma PinComesNearer(queue: seq<Msg>, h: Digest, id: nat, k: nat)
    requires PinComes(queue, h, id, k) && !(queue[0].Pin? && h in queue[0].keep)
    ensures k > 0 && queue[0] != Release(id) && PinComes(queue[1..], h, id, k - 1)
  {
  }

  lemma StillHeld(holds: map<nat, set<Digest>>, m: Msg, h: Digest, id: nat)
    requires id in holds && h in holds[id] && m != Release(id)
    ensures id in HoldsAfter(holds, m) && h in HoldsAfter(holds, m)[id]
  {
  }

  lemma SecureHandle(w: World, w': World, h: Digest, id: nat)
    requires Inv(w) && HandleTo(w, w') && Secure(w, h, id) && !Unpins(w, HandleNext, h)
    ensures Secure(w', h, id)
  {
    HandleActor(w, w');
    if h !in w'.actor.pins {
      var k: nat :| PinComes(w.queue, h, id, k);
      PinComesNearer(w.queue, h, id, k);
      StillHeld(w.actor.holds, w.queue[0], h, id);
      assert PinComes(w'.queue, h, id, k - 1);
    }
    assert Wanted(w'.actor, h);
  }

  /** What a step of anyone but the actor leaves. */
  lemma OtherStep(w: World, s: Step, w': World)
    requires StepTo(w, s, w') && !s.HandleNext?
    ensures w'.actor == w.actor && w.queue <= w'.queue
    ensures forall h :: h in w.files && h !in w.unlinking ==> h in w'.files && h !in w'.unlinking
  {
  }

  lemma SecureStep(w: World, s: Step, w': World, h: Digest, id: nat)
    requires Inv(w) && StepTo(w, s, w') && Secure(w, h, id) && !Unpins(w, s, h)
    ensures Secure(w', h, id)
  {
    if s.HandleNext? {
      SecureHandle(w, w', h, id);
    } else {
      OtherStep(w, s, w');
      if h !in w.actor.pins {
        var k: nat :| PinComes(w.queue, h, id, k);
        PinComesLater(w.queue, w'.queue, h, id, k);
      }
    }
  }

  /** A seal sends the pins that name its chunks before it drops its hold: from
      then on they are secure. */
  lemma PinBeforeReleaseSecures(w: World, keep: set<Digest>, w': World, t: nat, j: nat)
    requires Inv(w) && StepTo(w, Send(Pin(keep)), w')
    requires t in w.batches && w.batches[t].live && j < |w.batches[t].chunks| && DoneWith(w.batches[t], j)
    requires w.batches[t].chunks[j].0 in keep
    requires forall k :: 0 <= k < |w.queue| ==> w.queue[k] != Release(w.batches[t].hold.value)
    ensures Secure(w', w.batches[t].chunks[j].0, w.batches[t].hold.value)
  {
    var b := w.batches[t];
    assert BatchOk(w, b);
    assert Wanted(w.actor, b.chunks[j].0);
    assert PinComes(w'.queue, b.chunks[j].0, b.hold.value, |w.queue|);
  }

  /** From there, in every run, the file stays until a pin set without it is
      handled, whatever is released, admitted and evicted. */
  lemma {:induction false} SecureChunkStays(ws: seq<World>, steps: seq<Step>, n: nat, h: Digest, id: nat)
    requires IsRun(ws, steps) && Inv(ws[0]) && Secure(ws[0], h, id) && n < |ws|
    requires forall i :: 0 <= i < n ==> !Unpins(ws[i], steps[i], h)
    ensures Secure(ws[n], h, id) && h in ws[n].files
  {
    if n > 0 {
      SecureChunkStays(ws, steps, n - 1, h, id);
      RunKeeps(ws, steps, n - 1);
      SecureStep(ws[n - 1], steps[n - 1], ws[n], h, id);
    }
  }

  ghost predicate Quiet(w: World) {
    w.queue == [] && w.unlinking == [] && forall t :: t in w.batches ==> !w.batches[t].pc.Renamed?
  }

  /** Once everything sent is handled, every file is accounted for: it is wanted
      and pinned, or it counts against the budget. */
  lemma NoFileIsForgotten(ws: seq<World>, steps: seq<Step>, n: nat)
    requires IsRun(ws, steps) && Opened(ws[0]) && n < |ws| && Quiet(ws[n])
    ensures forall h :: h in ws[n].files ==>
              if Wanted(ws[n].actor, h) then h in ws[n].actor.pinned else Has(ws[n].actor.lru, h)
    ensures ws[n].actor.bytes == Sum(ws[n].actor.lru)
  {
    assert Inv(ws[0]);
    RunKeeps(ws, steps, n);
  }
}
