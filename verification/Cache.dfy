/** The in-process rule cache: compiling a published snapshot, and keeping the
    compiled rule set current under concurrent refreshes. */
module Cache {
  import opened Values
  import opened Syntax
  import opened Evaluation

  // ----------------------------------------------------------------- compiling

  /** A snapshot entry as it comes out of storage: any key may be missing. */
  datatype Stored = Stored(id: Option<string>, name: Option<string>, expression: Option<string>,
                           severity: Option<string>, state: Option<string>, priority: Option<int>,
                           reference: Option<string>, message: Option<string>)

  type Lists = seq<(string, seq<Value>)>

  datatype Publication = Publication(version: nat, rules: seq<Stored>, lists: Lists)

  datatype Loaded = Loaded(version: nat, rules: seq<CompiledRule>, lists: Lists)

  /** `validate_source`: the tree of an acceptable expression. */
  type Source = string -> Option<Expr>

  /** `Rejected` is the snapshot error the watcher handles; `Raised` is a KeyError or
      ValueError that nothing here does. */
  datatype Compilation<T> = Compiled(v: T) | Rejected | Raised

  function Or<T>(o: Option<T>, default: T): T {
    if o.Some? then o.value else default
  }

  function SeverityOf(text: string): Option<Severity> {
    match text
    case "block" => Some(Block)
    case "flag" => Some(Flag)
    case "allow_with_note" => Some(AllowWithNote)
    case _ => None
  }

  function StateOf(text: string): Option<RuleState> {
    match text
    case "draft" => Some(Draft)
    case "shadow" => Some(Shadow)
    case "active" => Some(Active)
    case "archived" => Some(Archived)
    case _ => None
  }

  function CompileEntry(source: Source, e: Stored): Compilation<CompiledRule> {
    if e.expression.None? || source(e.expression.value).None? then Rejected
    else if e.id.None? || e.severity.None? then Raised
    else if SeverityOf(e.severity.value).None? || StateOf(Or(e.state, "active")).None? then Raised
    else
      Compiled(CompiledRule(e.id.value, Or(e.name, e.id.value), source(e.expression.value).value,
                            SeverityOf(e.severity.value).value, StateOf(Or(e.state, "active")).value,
                            Or(e.priority, 0), Or(e.reference, ""), Or(e.message, "")))
  }

  function CompileAll(source: Source, es: seq<Stored>): Compilation<seq<CompiledRule>> {
    if es == [] then Compiled([])
    else
      var first := CompileEntry(source, es[0]);
      if first.Rejected? then Rejected
      else if first.Raised? then Raised
      else
        var rest := CompileAll(source, es[1..]);
        if rest.Compiled? then Compiled([first.v] + rest.v) else rest
  }

  method CompileSnapshot(source: Source, es: seq<Stored>) returns (r: Compilation<seq<CompiledRule>>)
    ensures CompileAll(source, es).Compiled? ==> r == Compiled(RuleSet(CompileAll(source, es).v))
    ensures !CompileAll(source, es).Compiled? ==> r == CompileAll(source, es)
  {
    var compiled: seq<CompiledRule> := [];
    var rest := es;
    OntoNothing(CompileAll(source, es));
    while rest != []
      invariant CompileAll(source, es) == Onto(compiled, CompileAll(source, rest))
      decreases |rest|
    {
      var first := CompileEntry(source, rest[0]);
      if first.Rejected? {
        return Rejected;
      }
      if first.Raised? {
        return Raised;
      }
      OntoAssociates(compiled, first.v, CompileAll(source, rest[1..]));
      compiled := compiled + [first.v];
      rest := rest[1..];
    }
    assert compiled + [] == compiled;
    r := Compiled(RuleSet(compiled));
  }

  function Onto(done: seq<CompiledRule>, rest: Compilation<seq<CompiledRule>>): Compilation<seq<CompiledRule>> {
    if rest.Compiled? then Compiled(done + rest.v) else rest
  }

  lemma {:induction false} OntoNothing(rest: Compilation<seq<CompiledRule>>)
    ensures Onto([], rest) == rest
  {
    if rest.Compiled? {
      assert [] + rest.v == rest.v;
    }
  }

  lemma {:induction false} OntoAssociates(done: seq<CompiledRule>, r: CompiledRule,
                                          rest: Compilation<seq<CompiledRule>>)
    ensures Onto(done, Onto([r], rest)) == Onto(done + [r], rest)
  {
    if rest.Compiled? {
      assert done + ([r] + rest.v) == (done + [r]) + rest.v;
    }
  }

  /** All or nothing: a snapshot compiles exactly when every entry does, each rule
      then being its entry's; otherwise its first bad entry decides how it fails. */
  lemma {:induction false} CompilesIff(source: Source, es: seq<Stored>)
    ensures CompileAll(source, es).Compiled? <==> forall e | e in es :: CompileEntry(source, e).Compiled?
    ensures var c := CompileAll(source, es);
            if c.Compiled? then
              |c.v| == |es| && forall i | 0 <= i < |es| :: CompileEntry(source, es[i]) == Compiled(c.v[i])
            else exists i | 0 <= i < |es| ::
                   && (CompileEntry(source, es[i]).Rejected? <==> c.Rejected?) && !CompileEntry(source, es[i]).Compiled?
                   && forall j | 0 <= j < i :: CompileEntry(source, es[j]).Compiled?
  {
    if es != [] {
      var first, rest := CompileEntry(source, es[0]), CompileAll(source, es[1..]);
      CompilesIff(source, es[1..]);
      if first.Compiled? && !rest.Compiled? {
        var i :| 0 <= i < |es[1..]|
              && (CompileEntry(source, es[1..][i]).Rejected? <==> rest.Rejected?)
              && !CompileEntry(source, es[1..][i]).Compiled?
              && forall j | 0 <= j < i :: CompileEntry(source, es[1..][j]).Compiled?;
        assert es[i + 1] == es[1..][i];
        assert forall j | 0 < j < i + 1 :: es[j] == es[1..][j - 1];
      } else if first.Compiled? {
        assert forall i | 0 < i < |es| :: es[i] == es[1..][i - 1];
      }
    }
  }

  const SEVERITIES := {"block", "flag", "allow_with_note"}
  const STATES := {"draft", "shadow", "active", "archived"}

  /** The entry has an expression, and it passes re-validation. */
  predicate Revalidates(source: Source, e: Stored) {
    e.expression.Some? && source(e.expression.value).Some?
  }

  /** It has an id and a known severity, and its state, if any, is a known one. */
  predicate WellFormed(e: Stored) {
    && e.id.Some?
    && e.severity.Some? && e.severity.value in SEVERITIES
    && (e.state.Some? ==> e.state.value in STATES)
  }

  lemma {:induction false} EntryCases(source: Source, e: Stored)
    ensures CompileEntry(source, e).Rejected? <==> !Revalidates(source, e)
    ensures CompileEntry(source, e).Raised? <==> Revalidates(source, e) && !WellFormed(e)
  {
  }

  /** The first bad entry of a snapshot revalidates but is not well-formed. */
  ghost predicate MalformedFirst(source: Source, es: seq<Stored>) {
    exists i | 0 <= i < |es| ::
      && Revalidates(source, es[i]) && !WellFormed(es[i])
      && forall j | 0 <= j < i :: Revalidates(source, es[j]) && WellFormed(es[j])
  }

  /** A snapshot raises what the watcher does not handle exactly when its first bad
      entry has an acceptable expression and lacks an id or a severity, or has an
      unknown severity or state. */
  lemma {:induction false} RaisesIff(source: Source, es: seq<Stored>)
    ensures CompileAll(source, es).Raised? <==> MalformedFirst(source, es)
  {
    if es != [] {
      EntryCases(source, es[0]);
      RaisesIff(source, es[1..]);
      MalformedSplits(source, es);
    }
  }

  lemma {:induction false} MalformedSplits(source: Source, es: seq<Stored>)
    requires es != []
    ensures MalformedFirst(source, es)
       <==> Revalidates(source, es[0]) && (!WellFormed(es[0]) || MalformedFirst(source, es[1..]))
  {
    var rest := es[1..];
    if MalformedFirst(source, es) {
      var i :| 0 <= i < |es| && Revalidates(source, es[i]) && !WellFormed(es[i])
            && forall j | 0 <= j < i :: Revalidates(source, es[j]) && WellFormed(es[j]);
      if i > 0 {
        assert rest[i - 1] == es[i] && forall j | 0 <= j < i - 1 :: rest[j] == es[j + 1];
      }
    }
    if Revalidates(source, es[0]) && WellFormed(es[0]) && MalformedFirst(source, rest) {
      var i :| 0 <= i < |rest| && Revalidates(source, rest[i]) && !WellFormed(rest[i])
            && forall j | 0 <= j < i :: Revalidates(source, rest[j]) && WellFormed(rest[j]);
      assert es[i + 1] == rest[i] && forall j | 0 < j < i + 1 :: es[j] == rest[j - 1];
    }
  }

  /** A rule published with the severity "blok": its expression is fine, and compiling
      the version that carries it ends the poll loop. */
  lemma {:induction false} UnknownSeverityRaises(source: Source, expression: string)
    requires source(expression).Some?
    ensures var e := Stored(Some("r"), Some("r"), Some(expression), Some("blok"), Some("active"), Some(0), None, None);
            CompileAll(source, [e]).Raised?
  {
    var e := Stored(Some("r"), Some("r"), Some(expression), Some("blok"), Some("active"), Some(0), None, None);
    EntryCases(source, e);
  }

  predicate Compiles(source: Source, p: Publication) {
    CompileAll(source, p.rules).Compiled?
  }

  function LoadedOf(source: Source, p: Publication): Loaded
    requires Compiles(source, p)
  {
    Loaded(p.version, RuleSet(CompileAll(source, p.rules).v), p.lists)
  }

  // ---------------------------------------------------------------- refreshing

  function VersionOf(current: Option<Loaded>): Option<nat> {
    if current.Some? then Some(current.value.version) else None
  }

  /** Does a refresh that loaded `published` go on to compile it? */
  predicate Stale(current: Option<Loaded>, published: Option<Publication>, force: bool) {
    published.Some? && (force || VersionOf(current) != Some(published.value.version))
  }

  function Refreshed(source: Source, current: Option<Loaded>, published: Option<Publication>, force: bool)
    : Option<Loaded>
  {
    if Stale(current, published, force) && Compiles(source, published.value)
    then Some(LoadedOf(source, published.value)) else current
  }

  datatype Reply = Returned(swapped: bool) | SnapshotError | OtherError

  class RuleSetCache {
    const source: Source
    var current: Option<Loaded>

    constructor (source: Source)
      ensures this.source == source && current == None
    {
      this.source := source;
      current := None;
    }

    /** Loads, compiles and swaps; `published` is what the load returns. */
    method Refresh(published: Option<Publication>, force: bool) returns (a: Reply)
      modifies this`current
      ensures current == Refreshed(source, old(current), published, force)
      ensures a == Returned(true) <==> Stale(old(current), published, force) && Compiles(source, published.value)
      ensures a == Returned(false) <==> !Stale(old(current), published, force)
      ensures a == SnapshotError
         <==> Stale(old(current), published, force) && CompileAll(source, published.value.rules).Rejected?
    {
      if published.None? {
        return Returned(false);
      }
      if !force && VersionOf(current) == Some(published.value.version) {
        return Returned(false);
      }
      var compiled := CompileSnapshot(source, published.value.rules);
      if compiled.Rejected? {
        return SnapshotError;
      }
      if compiled.Raised? {
        return OtherError;
      }
      current := Some(Loaded(published.value.version, compiled.v, published.value.lists));
      a := Returned(true);
    }
  }

  class VersionWatcher {
    const cache: RuleSetCache
    var polls: nat
    var announcements: nat

    constructor (cache: RuleSetCache)
      ensures this.cache == cache && polls == 0 && announcements == 0
    {
      this.cache := cache;
      polls, announcements := 0, 0;
    }

    /** None when an exception other than a snapshot error escapes, which ends the
        poll loop; the cache is then as it was. */
    method PollOnce(published: Option<Publication>) returns (swapped: Option<bool>)
      modifies this`polls, cache`current
      ensures polls == old(polls) + 1
      ensures cache.current == Refreshed(cache.source, old(cache.current), published, false)
      ensures swapped == Some(true)
         <==> Stale(old(cache.current), published, false) && Compiles(cache.source, published.value)
      ensures swapped == None
         <==> Stale(old(cache.current), published, false) && MalformedFirst(cache.source, published.value.rules)
    {
      polls := polls + 1;
      swapped := RefreshQuietly(published);
    }

    method OnAnnouncement(published: Option<Publication>) returns (swapped: Option<bool>)
      modifies this`announcements, cache`current
      ensures announcements == old(announcements) + 1
      ensures cache.current == Refreshed(cache.source, old(cache.current), published, false)
      ensures swapped == Some(true)
         <==> Stale(old(cache.current), published, false) && Compiles(cache.source, published.value)
      ensures swapped == None
         <==> Stale(old(cache.current), published, false) && MalformedFirst(cache.source, published.value.rules)
    {
      announcements := announcements + 1;
      swapped := RefreshQuietly(published);
    }

    method RefreshQuietly(published: Option<Publication>) returns (swapped: Option<bool>)
      modifies cache`current
      ensures cache.current == Refreshed(cache.source, old(cache.current), published, false)
      ensures swapped == Some(true)
         <==> Stale(old(cache.current), published, false) && Compiles(cache.source, published.value)
      ensures swapped == None
         <==> Stale(old(cache.current), published, false) && MalformedFirst(cache.source, published.value.rules)
    {
      if published.Some? {
        RaisesIff(cache.source, published.value.rules);
      }
      var a := cache.Refresh(published, false);
      match a {
        case Returned(b) => swapped := Some(b);
        case SnapshotError => swapped := Some(false);
        case OtherError => swapped := None;
      }
    }
  }
}
