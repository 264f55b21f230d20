/** Every interleaving of publishes, refreshes and reads of one worker's cache. */
module CacheRuns {
  import opened Values
  import opened Cache

  /** How far the refresh that holds the lock has got. */
  datatype Phase = Entered | Read(published: Option<Publication>, force: bool) | Ready(next: Loaded)

  datatype Lock = Free | Held(thread: nat, phase: Phase)

  /** A read of `current` takes no lock: it sees this field as it is at that moment. */
  datatype State = State(published: seq<Publication>, current: Option<Loaded>, lock: Lock)

  const START := State([], None, Free)

  /** A lost announcement is a refresh that no thread ever enters. */
  datatype Step =
    | Publish(rules: seq<Stored>, lists: Lists)
    | Acquire(thread: nat)
    | Load(thread: nat, force: bool)
    | Compile(thread: nat)
    | Swap(thread: nat)

  /** What the load returns: the row with the highest version. */
  function Newest(s: State): Option<Publication> {
    if s.published == [] then None else Some(s.published[|s.published| - 1])
  }

  /** A step that a thread is not in a position to take changes nothing. */
  function Next(source: Source, s: State, step: Step): State {
    match step
    case Publish(rules, lists) =>
      s.(published := s.published + [Publication(|s.published| + 1, rules, lists)])
    case Acquire(t) => if s.lock.Free? then s.(lock := Held(t, Entered)) else s
    case Load(t, force) => if s.lock == Held(t, Entered) then s.(lock := Held(t, Read(Newest(s), force))) else s
    case Compile(t) =>
      if !(s.lock.Held? && s.lock.thread == t && s.lock.phase.Read?) then s
      else
        var p := s.lock.phase.published;
        if Stale(s.current, p, s.lock.phase.force) && Compiles(source, p.value)
        then s.(lock := Held(t, Ready(LoadedOf(source, p.value)))) else s.(lock := Free)
    case Swap(t) =>
      if !(s.lock.Held? && s.lock.thread == t && s.lock.phase.Ready?) then s
      else s.(current := Some(s.lock.phase.next), lock := Free)
  }

  function After(source: Source, s: State, steps: seq<Step>): State {
    if steps == [] then s else Next(source, After(source, s, steps[..|steps| - 1]), steps[|steps| - 1])
  }

  // ---------------------------------------------------------------- invariants

  function VersionNumber(current: Option<Loaded>): nat {
    if current.Some? then current.value.version else 0
  }

  ghost predicate Numbered(ps: seq<Publication>) {
    forall i | 0 <= i < |ps| :: ps[i].version == i + 1
  }

  /** The whole compilation of one published version. */
  ghost predicate WholeOf(source: Source, ps: seq<Publication>, l: Loaded) {
    && 1 <= l.version <= |ps|
    && Compiles(source, ps[l.version - 1]) && l == LoadedOf(source, ps[l.version - 1])
  }

  ghost predicate Sound(source: Source, s: State) {
    && Numbered(s.published)
    && (s.current.Some? ==> WholeOf(source, s.published, s.current.value))
    && (s.lock.Held? ==>
          match s.lock.phase
          case Entered => true
          case Read(p, _) =>
            if p.None? then s.current.None?
            else
              && 1 <= p.value.version <= |s.published| && p.value == s.published[p.value.version - 1]
              && VersionNumber(s.current) <= p.value.version
          case Ready(l) => WholeOf(source, s.published, l) && VersionNumber(s.current) <= l.version)
  }

  /** Every step keeps the invariant and never lowers the cached version. */
  lemma {:induction false} StepSound(source: Source, s: State, step: Step)
    requires Sound(source, s)
    ensures Sound(source, Next(source, s, step))
    ensures VersionNumber(s.current) <= VersionNumber(Next(source, s, step).current)
  {
    match step
    case Publish(rules, lists) => PublishSound(source, s, rules, lists);
    case Compile(t) => CompileSound(source, s, t);
    case _ =>
  }

  lemma {:induction false} PublishSound(source: Source, s: State, rules: seq<Stored>, lists: Lists)
    requires Sound(source, s)
    ensures Sound(source, Next(source, s, Publish(rules, lists)))
  {
  }

  lemma {:induction false} CompileSound(source: Source, s: State, t: nat)
    requires Sound(source, s)
    ensures Sound(source, Next(source, s, Compile(t))) && Next(source, s, Compile(t)).current == s.current
  {
  }

  /** What a lock-free read can see, at any moment of any run. */
  lemma {:induction false} ReadsAreWhole(source: Source, steps: seq<Step>)
    ensures Sound(source, After(source, START, steps))
    ensures var s := After(source, START, steps);
            s.current.Some? ==> WholeOf(source, s.published, s.current.value)
  {
    if steps != [] {
      ReadsAreWhole(source, steps[..|steps| - 1]);
      StepSound(source, After(source, START, steps[..|steps| - 1]), steps[|steps| - 1]);
    }
  }

  lemma {:induction false} VersionNeverDecreases(source: Source, s: State, steps: seq<Step>)
    requires Sound(source, s)
    ensures Sound(source, After(source, s, steps))
    ensures VersionNumber(s.current) <= VersionNumber(After(source, s, steps).current)
  {
    if steps != [] {
      VersionNeverDecreases(source, s, steps[..|steps| - 1]);
      StepSound(source, After(source, s, steps[..|steps| - 1]), steps[|steps| - 1]);
    }
  }

  /** Only a swap changes what readers see, and only to a snapshot that compiled: a
      refresh that met one that does not leaves the cache alone. */
  lemma {:induction false} ChangedOnlyBySwap(source: Source, s: State, step: Step)
    requires Sound(source, s) && Next(source, s, step).current != s.current
    ensures step.Swap? && s.lock.Held? && s.lock.thread == step.thread && s.lock.phase.Ready?
    ensures Compiles(source, s.published[s.lock.phase.next.version - 1])
  {
  }

  // --------------------------------------------------------------- propagation

  ghost predicate Current(source: Source, s: State) {
    Newest(s).Some? && Compiles(source, Newest(s).value) && s.current == Some(LoadedOf(source, Newest(s).value))
  }

  /** Thread `t` is in a refresh that began after the newest publish. */
  ghost predicate Underway(source: Source, s: State, t: nat) {
    && s.lock.Held? && s.lock.thread == t
    && match s.lock.phase
       case Entered => true
       case Read(p, _) => p == Newest(s)
       case Ready(l) => Newest(s).Some? && Compiles(source, Newest(s).value) && l == LoadedOf(source, Newest(s).value)
  }

  lemma {:induction false} UnderwayStep(source: Source, s: State, step: Step, t: nat)
    requires Sound(source, s) && !step.Publish? && Newest(s).Some? && Compiles(source, Newest(s).value)
    requires Current(source, s) || Underway(source, s, t)
    ensures Current(source, Next(source, s, step)) || Underway(source, Next(source, s, step), t)
    ensures Newest(Next(source, s, step)) == Newest(s)
    ensures Current(source, s) ==> Current(source, Next(source, s, step))
  {
    match step
    case Compile(t') => UnderwayCompile(source, s, t', t);
    case _ =>
  }

  lemma {:induction false} UnderwayCompile(source: Source, s: State, t': nat, t: nat)
    requires Sound(source, s) && Newest(s).Some? && Compiles(source, Newest(s).value)
    requires Current(source, s) || Underway(source, s, t)
    ensures Current(source, Next(source, s, Compile(t'))) || Underway(source, Next(source, s, Compile(t')), t)
    ensures Newest(Next(source, s, Compile(t'))) == Newest(s)
    ensures Current(source, s) ==> Current(source, Next(source, s, Compile(t')))
  {
  }

  /** A refresh that entered after the last publish, and has finished, has made the
      cache current, whatever other threads did meanwhile and although every
      announcement was lost; and it stays current until the next publish. */
  lemma {:induction false} PollMakesCurrent(source: Source, s: State, t: nat, steps: seq<Step>)
    requires Sound(source, s) && s.lock.Free? && Newest(s).Some? && Compiles(source, Newest(s).value)
    requires forall step | step in steps :: !step.Publish?
    ensures var end := After(source, Next(source, s, Acquire(t)), steps);
            && Newest(end) == Newest(s)
            && (!(end.lock.Held? && end.lock.thread == t) ==> Current(source, end))
  {
    PollProgresses(source, Next(source, s, Acquire(t)), t, steps);
  }

  lemma {:induction false} PollProgresses(source: Source, s: State, t: nat, steps: seq<Step>)
    requires Sound(source, s) && Newest(s).Some? && Compiles(source, Newest(s).value)
    requires Current(source, s) || Underway(source, s, t)
    requires forall step | step in steps :: !step.Publish?
    ensures var end := After(source, s, steps);
            && Sound(source, end) && Newest(end) == Newest(s)
            && (Current(source, end) || Underway(source, end, t))
            && (Current(source, s) ==> Current(source, end))
  {
    if steps != [] {
      var earlier := steps[..|steps| - 1];
      PollProgresses(source, s, t, earlier);
      UnderwayStep(source, After(source, s, earlier), steps[|steps| - 1], t);
      StepSound(source, After(source, s, earlier), steps[|steps| - 1]);
    }
  }

  lemma {:induction false} StaysCurrent(source: Source, s: State, steps: seq<Step>)
    requires Sound(source, s) && Current(source, s) && forall step | step in steps :: !step.Publish?
    ensures Current(source, After(source, s, steps)) && After(source, s, steps).published == s.published
  {
    if steps != [] {
      var earlier := steps[..|steps| - 1];
      StaysCurrent(source, s, earlier);
      VersionNeverDecreases(source, s, earlier);
      UnderwayStep(source, After(source, s, earlier), steps[|steps| - 1], 0);
    }
  }

  /** Alone with the lock, the four steps are the method `Refresh`. */
  lemma {:induction false} StepsAreRefresh(source: Source, s: State, t: nat, force: bool)
    requires s.lock.Free?
    ensures var loaded := Next(source, Next(source, s, Acquire(t)), Load(t, force));
            var end := Next(source, Next(source, loaded, Compile(t)), Swap(t));
            end == s.(current := Refreshed(source, s.current, Newest(s), force))
  {
  }
}
