/** Any number of uploads at once on one node, with crashes anywhere, and sweeps
    while none runs. */
module PushRuns {
  import opened Wrappers
  import opened Push

  /** An upload of a layer, and the chunks it found to be in the bucket. */
  datatype Upload = Upload(layer: Layer, confirmed: set<Hash>)

  /** The node's chunk files and chunk markers, the bucket, and the uploads that
      run. */
  datatype State = State(cached: set<Hash>, marks: set<Hash>, chunks: set<Hash>, layers: set<Layer>,
                         uploads: map<nat, Upload>)

  datatype Step =
    | Begin(p: nat, layer: Layer)
    | Skip(p: nat, h: Hash)
    | Put(p: nat, h: Hash)
    | Probe(p: nat, h: Hash)
    | Mark(p: nat, h: Hash)
    | PutManifest(p: nat)
    | Drop(p: nat)
    | Cache(files: set<Hash>)
    | Expire(kept: set<Hash>)
    | Learn(layer: Layer, written: set<Hash>)
    | SweepLayers(lost: set<Layer>)
    | SweepChunks(dead: set<Hash>, gone: set<Hash>, unmarked: bool)

  function Confirm(s: State, p: nat, h: Hash): State
    requires p in s.uploads
  {
    s.(uploads := s.uploads[p := s.uploads[p].(confirmed := s.uploads[p].confirmed + {h})])
  }

  /** No manifest in the bucket has one of the chunks. */
  ghost predicate Unreferenced(layers: set<Layer>, dead: set<Hash>) {
    forall l, h :: l in layers && h in l.chunks ==> h !in dead
  }

  ghost predicate StepTo(s: State, step: Step, s': State) {
    match step
    case Begin(p, layer) => p !in s.uploads && s' == s.(uploads := s.uploads[p := Upload(layer, {})])
    case Skip(p, h) => p in s.uploads && h in s.marks && s' == Confirm(s, p, h)
    case Put(p, h) => p in s.uploads && h in s.cached && s' == Confirm(s, p, h).(chunks := s.chunks + {h})
    case Probe(p, h) => p in s.uploads && h in s.chunks && s' == Confirm(s, p, h)
    case Mark(p, h) => p in s.uploads && h in s.uploads[p].confirmed && s' == s.(marks := s.marks + {h})
    case PutManifest(p) =>
      p in s.uploads && HasChunks(s.uploads[p].layer, s.uploads[p].confirmed)
      && s' == s.(layers := s.layers + {s.uploads[p].layer})
    // Done, failed, or lost in a crash.
    case Drop(p) => s' == s.(uploads := s.uploads - {p})
    case Cache(files) => s' == s.(cached := files)
    case Expire(kept) => s' == s.(marks := s.marks * kept)
    case Learn(layer, written) =>
      layer in s.layers && (forall h :: h in written ==> h in layer.chunks) && s' == s.(marks := s.marks + written)
    case SweepLayers(lost) => s.uploads == map[] && s' == s.(layers := s.layers - lost)
    // The markers go last, if the sweep gets that far.
    case SweepChunks(dead, gone, unmarked) =>
      && s.uploads == map[] && Unreferenced(s.layers, dead) && gone <= dead
      && s' == s.(chunks := s.chunks - gone, marks := if unmarked then s.marks - dead else s.marks)
  }

  /** A marked chunk is in the bucket, so are the chunks of every manifest there,
      and what an upload found is. */
  ghost predicate Inv(s: State) {
    && s.marks <= s.chunks && ManifestsComplete(s.layers, s.chunks)
    && forall p :: p in s.uploads ==> s.uploads[p].confirmed <= s.chunks
  }

  /** A sweep of chunks that runs through, or deletes no marked chunk. */
  ghost predicate Clean(s: State, step: Step) {
    step.SweepChunks? ==> step.unmarked || s.marks !! step.gone
  }

  lemma StepKeeps(s: State, step: Step, s': State)
    requires Inv(s) && StepTo(s, step, s') && Clean(s, step)
    ensures Inv(s')
  {
  }

  /** A sweep of chunks keeps the markers true exactly if it is clean. */
  lemma SweepKeepsIff(s: State, step: Step, s': State)
    requires Inv(s) && StepTo(s, step, s') && step.SweepChunks?
    ensures Inv(s') <==> Clean(s, step)
  {
    if Clean(s, step) {
      StepKeeps(s, step, s');
    } else {
      var h :| h in s.marks && h in step.gone;
      assert h in s'.marks && h !in s'.chunks;
    }
  }

  /** Wherever a sweep of these chunks stops, what the markers and the manifests say
      stays true. */
  ghost predicate AnyOutcomeKeeps(s: State, dead: set<Hash>) {
    forall step: Step, s': State :: step.SweepChunks? && step.dead == dead && StepTo(s, step, s') ==> Inv(s')
  }

  /** That is so exactly if no planned chunk is marked. */
  lemma SweepSafeIff(s: State, dead: set<Hash>)
    requires Inv(s) && s.uploads == map[] && Unreferenced(s.layers, dead)
    ensures AnyOutcomeKeeps(s, dead) <==> s.marks !! dead
  {
    if AnyOutcomeKeeps(s, dead) {
      var step, s' := SweepChunks(dead, dead, false), s.(chunks := s.chunks - dead);
      assert StepTo(s, step, s');
      SweepKeepsIff(s, step, s');
    } else {
      var step: Step, s': State :| step.SweepChunks? && step.dead == dead && StepTo(s, step, s') && !Inv(s');
      SweepKeepsIff(s, step, s');
    }
  }

  // ---- runs ----------------------------------------------------------------------------

  /** A run of `n` steps from `s` to `s'`; with `clean`, all its sweeps are. */
  ghost predicate RunOf(s: State, s': State, clean: bool, n: nat)
    decreases n
  {
    if n == 0 then s == s'
    else exists m: State, step: Step ::
      StepTo(m, step, s') && (clean ==> Clean(m, step)) && RunOf(s, m, clean, n - 1)
  }

  ghost predicate Runs(s: State, s': State, clean: bool) {
    exists n: nat :: RunOf(s, s', clean, n)
  }

  lemma RunsNowhere(s: State, clean: bool)
    ensures Runs(s, s, clean)
  {
    assert RunOf(s, s, clean, 0);
  }

  lemma RunsOn(s: State, m: State, step: Step, s': State, clean: bool)
    requires Runs(s, m, clean) && StepTo(m, step, s') && (clean ==> Clean(m, step))
    ensures Runs(s, s', clean)
  {
    var n: nat :| RunOf(s, m, clean, n);
    assert RunOf(s, s', clean, n + 1);
  }

  lemma {:induction false} RunJoins(s: State, m: State, s': State, clean: bool, n: nat)
    requires Runs(s, m, clean) && RunOf(m, s', clean, n)
    ensures Runs(s, s', clean)
    decreases n
  {
    if n > 0 {
      var k: State, step: Step :| StepTo(k, step, s') && (clean ==> Clean(k, step)) && RunOf(m, k, clean, n - 1);
      RunJoins(s, m, k, clean, n - 1);
      RunsOn(s, k, step, s', clean);
    }
  }

  lemma RunsJoin(s: State, m: State, s': State, clean: bool)
    requires Runs(s, m, clean) && Runs(m, s', clean)
    ensures Runs(s, s', clean)
  {
    var n: nat :| RunOf(m, s', clean, n);
    RunJoins(s, m, s', clean, n);
  }

  lemma {:induction false} RunInv(s: State, s': State, n: nat)
    requires Inv(s) && RunOf(s, s', true, n)
    ensures Inv(s')
    decreases n
  {
    if n > 0 {
      var m: State, step: Step :| StepTo(m, step, s') && Clean(m, step) && RunOf(s, m, true, n - 1);
      RunInv(s, m, n - 1);
      StepKeeps(m, step, s');
    }
  }

  /** Over every run whose sweeps are clean, a marked chunk is in the bucket and a
      manifest in the bucket has all its chunks there. */
  lemma RunKeeps(s: State, s': State)
    requires Inv(s) && Runs(s, s', true)
    ensures Inv(s')
  {
    var n: nat :| RunOf(s, s', true, n);
    RunInv(s, s', n);
  }

  /** A node and a bucket with nothing in them. */
  ghost function Empty(): State {
    State({}, {}, {}, {}, map[])
  }

  /** From nothing: an upload brings two chunks to the bucket, marks one and is
      lost. */
  lemma MarkedThenLost(a: Hash, b: Hash, clean: bool)
    requires a != b
    ensures Runs(Empty(), State({a, b}, {a}, {a, b}, {}, map[]), clean)
  {
    var l := Layer(None, [a, b]);
    var s0 := Empty();
    var s1 := s0.(cached := {a, b});
    var s2 := s1.(uploads := map[7 := Upload(l, {})]);
    var s3 := Confirm(s2, 7, a).(chunks := {a});
    var s4 := Confirm(s3, 7, b).(chunks := {a, b});
    var s5 := s4.(marks := {a});
    var s6 := s5.(uploads := map[]);
    RunsNowhere(s0, clean);
    RunsOn(s0, s0, Cache({a, b}), s1, clean);
    RunsOn(s0, s1, Begin(7, l), s2, clean);
    RunsOn(s0, s2, Put(7, a), s3, clean);
    RunsOn(s0, s3, Put(7, b), s4, clean);
    RunsOn(s0, s4, Mark(7, a), s5, clean);
    assert s5.uploads - {7} == map[];
    RunsOn(s0, s5, Drop(7), s6, clean);
  }

  /** A sweep that fails halfway leaves a marker without its chunk, and the next
      upload of a layer with that chunk puts a manifest the bucket cannot serve. */
  lemma FailedSweepThenPush(a: Hash, b: Hash) returns (s: State)
    requires a != b
    ensures Runs(Empty(), s, false) && !ManifestsComplete(s.layers, s.chunks)
  {
    var l := Layer(None, [a]);
    MarkedThenLost(a, b, false);
    var s0 := State({a, b}, {a}, {a, b}, {}, map[]);
    var s1 := s0.(chunks := {b});
    var s2 := s1.(uploads := map[8 := Upload(l, {})]);
    var s3 := Confirm(s2, 8, a);
    s := s3.(layers := {l});
    assert s0.chunks - {a} == {b};
    RunsOn(Empty(), s0, SweepChunks({a, b}, {a}, false), s1, false);
    RunsOn(Empty(), s1, Begin(8, l), s2, false);
    RunsOn(Empty(), s2, Skip(8, a), s3, false);
    RunsOn(Empty(), s3, PutManifest(8), s, false);
    assert a in l.chunks && l in s.layers && a !in s.chunks;
    assert !HasChunks(l, s.chunks);
  }
}
