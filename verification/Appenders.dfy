/** Concurrent appenders. Each takes the tenant's row lock, reads the tail, inserts
    and commits; any interleaving of those steps, across any number of processes and
    tenants, is a run. */
module Appenders {
  import opened Sorting
  import opened Audit

  type Tenant = string
  type Process = nat

  datatype Phase =
    | Idle
    | Locked(tenant: Tenant)
    | TailRead(tenant: Tenant, prev: Hash)
    | Inserted(tenant: Tenant, record: Record)

  /** Committed rows per tenant, in commit order, and where each process is. */
  datatype State = State(committed: map<Tenant, seq<Record>>, phases: map<Process, Phase>)

  datatype Step =
    | Lock(p: Process, tenant: Tenant)
    | ReadTail(p: Process)
    | Insert(p: Process, content: Content, now: int)
    | Commit(p: Process)
    | Abort(p: Process)

  function Rows(s: State, t: Tenant): seq<Record> {
    if t in s.committed then s.committed[t] else []
  }

  function PhaseOf(s: State, p: Process): Phase {
    if p in s.phases then s.phases[p] else Idle
  }

  /** The row lock is held from `Lock` until the transaction ends. */
  predicate Holds(s: State, p: Process, t: Tenant) {
    !PhaseOf(s, p).Idle? && PhaseOf(s, p).tenant == t
  }

  // -------------------------------------------------------- reading in order

  /** The last row by `recorded_at`, then id. */
  predicate IsTail(rs: seq<Record>, r: Record) {
    r in rs && forall x | x in rs :: x == r || Earlier(x, r)
  }

  ghost predicate ClockAscends(rs: seq<Record>) {
    forall i, j | 0 <= i < j < |rs| :: rs[i].recordedAt < rs[j].recordedAt
  }

  // -------------------------------------------------------------------- steps

  ghost predicate Enabled(s: State, step: Step) {
    match step
    case Lock(p, t) => PhaseOf(s, p).Idle? && forall q :: !Holds(s, q, t)
    case ReadTail(p) => PhaseOf(s, p).Locked?
    case Insert(p, content, now) =>
      // `recorded_at` is later than anything the tenant has committed.
      PhaseOf(s, p).TailRead? && forall r | r in Rows(s, PhaseOf(s, p).tenant) :: r.recordedAt < now
    case Commit(p) => PhaseOf(s, p).Inserted?
    case Abort(p) => !PhaseOf(s, p).Idle?
  }

  ghost predicate Next(h: Hasher, s: State, step: Step, s': State) {
    Enabled(s, step) &&
    match step
    case Lock(p, t) => s' == s.(phases := s.phases[p := Locked(t)])
    case ReadTail(p) =>
      var t := PhaseOf(s, p).tenant;
      exists prev ::
        && (if Rows(s, t) == [] then prev == GENESIS else exists tail :: IsTail(Rows(s, t), tail) && prev == tail.hash)
        && s' == s.(phases := s.phases[p := TailRead(t, prev)])
    case Insert(p, content, now) =>
      var ph := PhaseOf(s, p);
      s' == s.(phases := s.phases[p := Inserted(ph.tenant, Chained(h, content, ph.prev, now))])
    case Commit(p) =>
      var ph := PhaseOf(s, p);
      s' == State(s.committed[ph.tenant := Rows(s, ph.tenant) + [ph.record]], s.phases[p := Idle])
    case Abort(p) => s' == s.(phases := s.phases[p := Idle])
  }

  // ---------------------------------------------------------------- invariant

  /** What the process in the middle of an append knows about the rows. */
  ghost predicate UpToDate(h: Hasher, s: State, p: Process) {
    match PhaseOf(s, p)
    case Idle => true
    case Locked(_) => true
    case TailRead(t, prev) => prev == Head(Rows(s, t))
    case Inserted(t, r) =>
      && r.content.prev == Head(Rows(s, t)) && r.hash == h(r.content)
      && forall x | x in Rows(s, t) :: x.recordedAt < r.recordedAt
  }

  ghost predicate Inv(h: Hasher, s: State) {
    && (forall t :: Verifies(h, Rows(s, t)) && ClockAscends(Rows(s, t)))
    && (forall p, q, t | Holds(s, p, t) && Holds(s, q, t) :: p == q)
    && forall p :: UpToDate(h, s, p)
  }

  lemma {:induction false} TailIsLast(rs: seq<Record>, tail: Record)
    requires ClockAscends(rs) && rs != [] && IsTail(rs, tail)
    ensures tail == rs[|rs| - 1]
  {
    var i :| 0 <= i < |rs| && rs[i] == tail;
    assert rs[|rs| - 1] == tail || Earlier(rs[|rs| - 1], tail);
  }

  lemma {:induction false} CommitKeeps(h: Hasher, rs: seq<Record>, r: Record)
    requires Verifies(h, rs) && ClockAscends(rs)
    requires r.content.prev == Head(rs) && r.hash == h(r.content) && forall x | x in rs :: x.recordedAt < r.recordedAt
    ensures Verifies(h, rs + [r]) && ClockAscends(rs + [r])
  {
    AppendVerifies(h, rs, r.content, r.recordedAt);
    assert Chained(h, r.content, Head(rs), r.recordedAt) == r;
  }

  lemma {:induction false} StepKeepsLock(h: Hasher, s: State, step: Step, s': State)
    requires Next(h, s, step, s')
    requires forall p, q, t | Holds(s, p, t) && Holds(s, q, t) :: p == q
    ensures forall p, q, t | Holds(s', p, t) && Holds(s', q, t) :: p == q
  {
    forall p, q, t | Holds(s', p, t) && Holds(s', q, t) ensures p == q {
      if step.Lock? {
        assert p != step.p ==> Holds(s, p, t);
        assert q != step.p ==> Holds(s, q, t);
      } else {
        assert Holds(s, p, t) && Holds(s, q, t);
      }
    }
  }

  lemma {:induction false} StepKeepsRows(h: Hasher, s: State, step: Step, s': State)
    requires Inv(h, s) && Next(h, s, step, s')
    ensures forall t :: Verifies(h, Rows(s', t)) && ClockAscends(Rows(s', t))
  {
    if step.Commit? {
      var ph := PhaseOf(s, step.p);
      assert UpToDate(h, s, step.p);
      CommitKeeps(h, Rows(s, ph.tenant), ph.record);
      forall t ensures Verifies(h, Rows(s', t)) && ClockAscends(Rows(s', t)) {
        if t != ph.tenant {
          assert Rows(s', t) == Rows(s, t);
        }
      }
    } else {
      assert forall t :: Rows(s', t) == Rows(s, t);
    }
  }

  lemma {:induction false} ReaderKnowsHead(h: Hasher, s: State, p: Process, s': State)
    requires Inv(h, s) && Next(h, s, ReadTail(p), s')
    ensures UpToDate(h, s', p)
  {
    var t := PhaseOf(s, p).tenant;
    var rs := Rows(s, t);
    var prev :| (if rs == [] then prev == GENESIS else exists tail :: IsTail(rs, tail) && prev == tail.hash)
                && s' == s.(phases := s.phases[p := TailRead(t, prev)]);
    if rs != [] {
      var tail :| IsTail(rs, tail) && prev == tail.hash;
      TailIsLast(rs, tail);
    }
  }

  /** A commit can only concern tenants that no other process is appending to. */
  lemma {:induction false} OthersUnaffected(h: Hasher, s: State, step: Step, s': State, p: Process)
    requires Inv(h, s) && Next(h, s, step, s') && p != step.p
    ensures UpToDate(h, s', p)
  {
    assert UpToDate(h, s, p);
    assert PhaseOf(s', p) == PhaseOf(s, p);
    if !PhaseOf(s, p).Idle? {
      var t := PhaseOf(s, p).tenant;
      assert Rows(s', t) == Rows(s, t) by {
        if step.Commit? {
          assert Holds(s, p, t) && Holds(s, step.p, PhaseOf(s, step.p).tenant);
        }
      }
    }
  }

  lemma {:induction false} StepKeepsKnowledge(h: Hasher, s: State, step: Step, s': State, p: Process)
    requires Inv(h, s) && Next(h, s, step, s')
    ensures UpToDate(h, s', p)
  {
    if p != step.p {
      OthersUnaffected(h, s, step, s', p);
    } else if step.ReadTail? {
      ReaderKnowsHead(h, s, p, s');
    } else {
      assert UpToDate(h, s, p);
    }
  }

  lemma {:induction false} StepKeepsInv(h: Hasher, s: State, step: Step, s': State)
    requires Inv(h, s) && Next(h, s, step, s')
    ensures Inv(h, s')
  {
    StepKeepsRows(h, s, step, s');
    StepKeepsLock(h, s, step, s');
    forall p ensures UpToDate(h, s', p) {
      StepKeepsKnowledge(h, s, step, s', p);
    }
  }

  // --------------------------------------------------------------------- runs

  ghost predicate IsRun(h: Hasher, states: seq<State>, steps: seq<Step>) {
    && |states| == |steps| + 1
    && states[0] == State(map[], map[])
    && forall i | 0 <= i < |steps| :: Next(h, states[i], steps[i], states[i + 1])
  }

  lemma {:induction false} RunKeepsInv(h: Hasher, states: seq<State>, steps: seq<Step>, n: nat)
    requires IsRun(h, states, steps) && n < |states|
    ensures Inv(h, states[n])
  {
    if n > 0 {
      RunKeepsInv(h, states, steps, n - 1);
      assert Next(h, states[n - 1], steps[n - 1], states[n]);
      StepKeepsInv(h, states[n - 1], steps[n - 1], states[n]);
    }
  }

  lemma {:induction false} ClockOrderIsKeyOrder(rs: seq<Record>)
    requires ClockAscends(rs)
    ensures Ascending(Earlier, rs)
  {
    if rs != [] {
      assert forall i, j | 0 <= i < j < |rs[1..]| :: rs[1..][i].recordedAt < rs[1..][j].recordedAt;
      ClockOrderIsKeyOrder(rs[1..]);
    }
  }

  /** In every reachable state of every interleaving, whatever any tenant's rows are
      read back as in order is the chain as committed; it verifies, and no two of its
      records follow the same one. */
  lemma {:induction false} EveryTenantVerifies(h: Hasher, states: seq<State>, steps: seq<Step>, n: nat, t: Tenant,
                                               view: seq<Record>)
    requires IsRun(h, states, steps) && n < |states| && InOrder(view, Rows(states[n], t))
    ensures view == Rows(states[n], t) && Verifies(h, view)
    ensures Injective(h) && NeverGenesis(h) ==>
              forall i, j | 0 <= i < j < |view| :: view[i].content.prev != view[j].content.prev
  {
    RunKeepsInv(h, states, steps, n);
    EarlierIsStrict();
    ClockOrderIsKeyOrder(Rows(states[n], t));
    AscendingUnique(Earlier, view, Rows(states[n], t));
    if Injective(h) && NeverGenesis(h) {
      forall i, j | 0 <= i < j < |view| ensures view[i].content.prev != view[j].content.prev {
        NoFork(h, view, i, j);
      }
    }
  }
}
