/** The table of disk locks: a disk has a lock while a call of it is under way,
    and calls of one disk go one at a time. */
module DiskLocks {
  type Disk = nat
  type Lock = nat

  /** A call: it shares its disk's lock while it waits for it and while it holds
      it; once it has let go it looks whether the lock can be forgotten. */
  datatype Call = Waiting(disk: Disk, lock: Lock) | Holding(disk: Disk, lock: Lock) | Leaving(disk: Disk)

  /** The table, the calls under way, and the lock made next. */
  datatype State = State(table: map<Disk, Lock>, calls: map<nat, Call>, next: Lock)

  datatype Step =
    | Enter(c: nat, disk: Disk)
    | Acquire(c: nat)
    | GiveUp(c: nat)
    | Release(c: nat)
    | Forget(c: nat)

  ghost predicate Shares(s: State, c: nat, lock: Lock) {
    c in s.calls && !s.calls[c].Leaving? && s.calls[c].lock == lock
  }

  ghost function Entries(s: State, lock: Lock): set<Disk> {
    set d | d in s.table && s.table[d] == lock
  }

  ghost function Sharers(s: State, lock: Lock): set<nat> {
    set c | c in s.calls && Shares(s, c, lock)
  }

  /** The references to a lock: of the table, and of the calls that share it. */
  ghost function StrongCount(s: State, lock: Lock): nat {
    |Entries(s, lock)| + |Sharers(s, lock)|
  }

  ghost predicate IsHeld(s: State, lock: Lock) {
    exists c :: c in s.calls && s.calls[c].Holding? && s.calls[c].lock == lock
  }

  ghost predicate StepTo(s: State, step: Step, s': State) {
    match step
    // The table's own mutex makes looking the lock up, or making it, one step.
    case Enter(c, d) =>
      && c !in s.calls
      && if d in s.table
         then s' == s.(calls := s.calls[c := Waiting(d, s.table[d])])
         else s' == State(s.table[d := s.next], s.calls[c := Waiting(d, s.next)], s.next + 1)
    case Acquire(c) =>
      && c in s.calls && s.calls[c].Waiting? && !IsHeld(s, s.calls[c].lock)
      && s' == s.(calls := s.calls[c := Holding(s.calls[c].disk, s.calls[c].lock)])
    // Timed out, or dropped while it waits.
    case GiveUp(c) =>
      && c in s.calls && s.calls[c].Waiting?
      && s' == s.(calls := s.calls[c := Leaving(s.calls[c].disk)])
    case Release(c) =>
      && c in s.calls && s.calls[c].Holding?
      && s' == s.(calls := s.calls[c := Leaving(s.calls[c].disk)])
    // Under the table's mutex: the lock goes if only the table has it.
    case Forget(c) =>
      && c in s.calls && s.calls[c].Leaving?
      && var d := s.calls[c].disk;
         var rest := s.calls - {c};
         if d in s.table && StrongCount(s, s.table[d]) == 1
         then s' == s.(table := s.table - {d}, calls := rest)
         else s' == s.(calls := rest)
  }

  /** A call that shares a lock shares that of its disk in the table. */
  ghost predicate CallOk(s: State, c: nat)
    requires c in s.calls
  {
    var call := s.calls[c];
    call.Leaving? || (call.disk in s.table && s.table[call.disk] == call.lock)
  }

  ghost predicate Holds(s: State, c: nat, d: Disk) {
    c in s.calls && s.calls[c].Holding? && s.calls[c].disk == d
  }

  ghost predicate IsOf(s: State, c: nat, d: Disk) {
    c in s.calls && s.calls[c].disk == d
  }

  /** A call of the disk is under way. */
  ghost predicate Active(s: State, d: Disk) {
    exists c :: IsOf(s, c, d)
  }

  /** No lock is two disks', and none is made twice. */
  ghost predicate TableOk(s: State) {
    && (forall d, e :: d in s.table && e in s.table && s.table[d] == s.table[e] ==> d == e)
    && (forall d :: d in s.table ==> s.table[d] < s.next)
  }

  /** All calls of a disk that share a lock share the table's; at most one holds
      it; and a disk in the table has a call under way. */
  ghost predicate Inv(s: State) {
    && TableOk(s)
    && (forall c :: c in s.calls ==> CallOk(s, c))
    && (forall b, c, d :: Holds(s, b, d) && Holds(s, c, d) ==> b == c)
    && (forall d :: d in s.table ==> Active(s, d))
  }

  /** Only the table has the lock: no call shares it. */
  lemma CountIsOne(s: State, d: Disk)
    requires TableOk(s) && d in s.table
    ensures StrongCount(s, s.table[d]) == 1 <==> Sharers(s, s.table[d]) == {}
  {
    assert Entries(s, s.table[d]) == {d};
  }

  lemma StillActive(s: State, s': State, d: Disk, c: nat)
    requires Active(s, d) && (s.calls - {c}).Keys <= s'.calls.Keys
    requires forall b :: b in s.calls && b in s'.calls ==> s'.calls[b].disk == s.calls[b].disk
    requires c in s'.calls || !IsOf(s, c, d)
    ensures Active(s', d)
  {
    var b :| IsOf(s, b, d);
    assert b != c ==> b in s.calls - {c};
    assert IsOf(s', b, d);
  }

  lemma EnterKeeps(s: State, c: nat, d: Disk, s': State)
    requires Inv(s) && StepTo(s, Enter(c, d), s')
    ensures Inv(s')
  {
    forall b | b in s'.calls ensures CallOk(s', b) {
      if b != c { assert CallOk(s, b); }
    }
    forall a, b, e | Holds(s', a, e) && Holds(s', b, e) ensures a == b { assert Holds(s, a, e) && Holds(s, b, e); }
    forall e | e in s'.table ensures Active(s', e) {
      if e == d {
        assert IsOf(s', c, d);
      } else {
        StillActive(s, s', e, c);
      }
    }
  }

  /** Whose lock is not held has no other call of its disk that holds. */
  lemma NotHeld(s: State, b: nat, c: nat)
    requires Inv(s) && c in s.calls && !s.calls[c].Leaving? && Holds(s, b, s.calls[c].disk)
    ensures IsHeld(s, s.calls[c].lock)
  {
    assert CallOk(s, b) && CallOk(s, c);
  }

  lemma MoveKeeps(s: State, c: nat, call: Call, s': State)
    requires Inv(s) && c in s.calls && !s.calls[c].Leaving? && call.disk == s.calls[c].disk
    requires call.Leaving? || (call.Holding? && call.lock == s.calls[c].lock && !IsHeld(s, call.lock))
    requires s' == s.(calls := s.calls[c := call])
    ensures Inv(s')
  {
    assert CallOk(s, c);
    forall b | b in s'.calls ensures CallOk(s', b) { assert CallOk(s, b); }
    forall a, b, e | Holds(s', a, e) && Holds(s', b, e) ensures a == b {
      if a != b {
        assert a == c || Holds(s, a, e);
        assert b == c || Holds(s, b, e);
        if a == c { NotHeld(s, b, c); }
        if b == c { NotHeld(s, a, c); }
      }
    }
    forall d | d in s'.table ensures Active(s', d) { StillActive(s, s', d, c); }
  }

  lemma ForgetKeeps(s: State, c: nat, s': State)
    requires Inv(s) && StepTo(s, Forget(c), s')
    ensures Inv(s')
  {
    var d := s.calls[c].disk;
    if d in s.table { CountIsOne(s, d); }
    forall b | b in s'.calls ensures CallOk(s', b) {
      assert CallOk(s, b);
      if d in s.table && !s.calls[b].Leaving? && s.calls[b].disk == d { assert b in Sharers(s, s.table[d]); }
    }
    forall a, b, e | Holds(s', a, e) && Holds(s', b, e) ensures a == b { assert Holds(s, a, e) && Holds(s, b, e); }
    forall e | e in s'.table ensures Active(s', e) {
      if e == d {
        var b :| b in Sharers(s, s.table[d]);
        assert CallOk(s, b);
        assert IsOf(s', b, e);
      } else {
        StillActive(s, s', e, c);
      }
    }
  }

  lemma StepKeeps(s: State, step: Step, s': State)
    requires Inv(s) && StepTo(s, step, s')
    ensures Inv(s')
  {
    match step
    case Enter(c, d) => EnterKeeps(s, c, d, s');
    case Acquire(c) => MoveKeeps(s, c, Holding(s.calls[c].disk, s.calls[c].lock), s');
    case GiveUp(c) => MoveKeeps(s, c, Leaving(s.calls[c].disk), s');
    case Release(c) => MoveKeeps(s, c, Leaving(s.calls[c].disk), s');
    case Forget(c) => ForgetKeeps(s, c, s');
  }

  // ---- runs -----------------------------------------------------------------------------

  ghost predicate StepAt(ss: seq<State>, steps: seq<Step>, i: nat)
    requires |ss| == |steps| + 1 && i < |steps|
  {
    StepTo(ss[i], steps[i], ss[i + 1])
  }

  ghost predicate IsRun(ss: seq<State>, steps: seq<Step>) {
    |ss| == |steps| + 1 && ss[0] == State(map[], map[], 0) && forall i: nat :: i < |steps| ==> StepAt(ss, steps, i)
  }

  lemma RunInv(ss: seq<State>, steps: seq<Step>, n: nat)
    requires IsRun(ss, steps) && n < |ss|
    ensures Inv(ss[n])
  {
    for i := 0 to n
      invariant Inv(ss[i])
    {
      assert StepAt(ss, steps, i);
      StepKeeps(ss[i], steps[i], ss[i + 1]);
    }
  }

  /** In every interleaving: two calls of one disk never both hold its lock, the
      calls that wait or hold share the lock in the table, and a disk none of
      whose calls is under way is not in the table. */
  lemma LocksAreSafe(ss: seq<State>, steps: seq<Step>, n: nat, d: Disk)
    requires IsRun(ss, steps) && n < |ss|
    ensures forall b, c :: Holds(ss[n], b, d) && Holds(ss[n], c, d) ==> b == c
    ensures forall c :: IsOf(ss[n], c, d) && !ss[n].calls[c].Leaving? ==>
              d in ss[n].table && ss[n].calls[c].lock == ss[n].table[d]
    ensures d in ss[n].table ==> Active(ss[n], d)
  {
    RunInv(ss, steps, n);
    forall c | IsOf(ss[n], c, d) && !ss[n].calls[c].Leaving?
      ensures d in ss[n].table && ss[n].calls[c].lock == ss[n].table[d]
    {
      assert CallOk(ss[n], c);
    }
  }

  /** A call that waits is held up only by a call of its own disk. */
  lemma OnlyOwnDiskBlocks(s: State, c: nat)
    requires Inv(s) && c in s.calls && s.calls[c].Waiting?
    ensures (exists s' :: StepTo(s, Acquire(c), s')) <==> forall b :: !Holds(s, b, s.calls[c].disk)
  {
    assert CallOk(s, c);
    if forall b :: !Holds(s, b, s.calls[c].disk) {
      forall b | b in s.calls && s.calls[b].Holding? ensures s.calls[b].lock != s.calls[c].lock {
        assert CallOk(s, b);
        assert !Holds(s, b, s.calls[c].disk);
      }
      var s' := s.(calls := s.calls[c := Holding(s.calls[c].disk, s.calls[c].lock)]);
      assert StepTo(s, Acquire(c), s');
    }
    if b :| Holds(s, b, s.calls[c].disk) {
      NotHeld(s, b, c);
    }
  }

  // ---- calls end --------------------------------------------------------------------------

  ghost function Sharing(s: State): set<nat> {
    set c | c in s.calls && !s.calls[c].Leaving?
  }

  /** `n` steps lead from `s` to `s'`. */
  ghost predicate Leads(s: State, s': State, n: nat)
    decreases n
  {
    if n == 0 then s == s' else exists m: State, step: Step :: StepTo(s, step, m) && Leads(m, s', n - 1)
  }

  /** A call that shares a lock can let go of it, and is leaving then. */
  lemma CanLeave(s: State, c: nat) returns (step: Step, m: State)
    requires Inv(s) && c in s.calls && !s.calls[c].Leaving?
    ensures StepTo(s, step, m) && Inv(m) && m.calls.Keys == s.calls.Keys && Sharing(m) == Sharing(s) - {c}
  {
    step := if s.calls[c].Waiting? then GiveUp(c) else Release(c);
    m := s.(calls := s.calls[c := Leaving(s.calls[c].disk)]);
    StepKeeps(s, step, m);
  }

  lemma CanForget(s: State, c: nat) returns (m: State)
    requires Inv(s) && c in s.calls && s.calls[c].Leaving?
    ensures StepTo(s, Forget(c), m) && Inv(m) && m.calls == s.calls - {c}
  {
    var d, rest := s.calls[c].disk, s.calls - {c};
    m := if d in s.table && StrongCount(s, s.table[d]) == 1 then s.(table := s.table - {d}, calls := rest)
         else s.(calls := rest);
    StepKeeps(s, Forget(c), m);
  }

  /** From every state the calls can end, and then no lock is left in the table. */
  lemma {:induction false} CallsCanEnd(s: State) returns (s': State, n: nat)
    requires Inv(s)
    ensures Leads(s, s', n) && s'.calls == map[] && s'.table == map[]
    decreases s.calls.Keys, Sharing(s)
  {
    if c :| c in s.calls {
      var m, step;
      if s.calls[c].Leaving? {
        m := CanForget(s, c);
        step := Forget(c);
        assert m.calls.Keys == s.calls.Keys - {c};
      } else {
        step, m := CanLeave(s, c);
        assert c in Sharing(s);
      }
      s', n := CallsCanEnd(m);
      n := n + 1;
    } else {
      s', n := s, 0;
      assert forall d :: d in s.table ==> Active(s, d);
      assert s.table.Keys == {};
    }
  }
}
