/** What a stored entry compiles to, told by the text it holds, and what a refresh
    does with a publication. */
module CompiledEntries {
  import opened Values
  import opened Evaluation
  import opened Cache

  function SeverityName(s: Severity): string {
    match s
    case Block => "block"
    case Flag => "flag"
    case AllowWithNote => "allow_with_note"
  }

  function StateName(s: RuleState): string {
    match s
    case Draft => "draft"
    case Shadow => "shadow"
    case Active => "active"
    case Archived => "archived"
  }

  /** Severities and states are read as they are written, and nothing else is one. */
  lemma {:induction false} NamesReadBack(text: string, severity: Severity, state: RuleState)
    ensures SeverityOf(text) == Some(severity) <==> text == SeverityName(severity)
    ensures StateOf(text) == Some(state) <==> text == StateName(state)
  {
  }

  predicate HoldsOr<T(==)>(stored: Option<T>, v: T, default: T) {
    stored == Some(v) || (stored.None? && v == default)
  }

  /** The rule is the one stored: a missing name is the id, a missing state active, a
      missing priority 0, a missing reference or message empty. */
  predicate StoredAs(source: Source, e: Stored, r: CompiledRule) {
    && e.id == Some(r.id) && HoldsOr(e.name, r.name, r.id)
    && e.expression.Some? && source(e.expression.value) == Some(r.tree)
    && e.severity == Some(SeverityName(r.severity)) && HoldsOr(e.state, StateName(r.state), "active")
    && HoldsOr(e.priority, r.priority, 0) && HoldsOr(e.reference, r.reference, "") && HoldsOr(e.message, r.message, "")
  }

  lemma {:induction false} EntryIs(source: Source, e: Stored, r: CompiledRule)
    ensures CompileEntry(source, e) == Compiled(r) <==> StoredAs(source, e, r)
  {
    if e.severity.Some? {
      NamesReadBack(e.severity.value, r.severity, r.state);
    }
    NamesReadBack(Or(e.state, "active"), r.severity, r.state);
  }

  /** A snapshot compiles to these rules exactly when each is stored as its entry. */
  lemma {:induction false} SnapshotIs(source: Source, es: seq<Stored>, rs: seq<CompiledRule>)
    ensures CompileAll(source, es) == Compiled(rs)
       <==> |es| == |rs| && forall i | 0 <= i < |es| :: StoredAs(source, es[i], rs[i])
  {
    if es != [] && rs != [] {
      SnapshotIs(source, es[1..], rs[1..]);
      EntryIs(source, es[0], rs[0]);
      assert rs == [rs[0]] + rs[1..];
      forall i | 0 < i < |es| && i < |rs|
        ensures StoredAs(source, es[i], rs[i]) <==> StoredAs(source, es[1..][i - 1], rs[1..][i - 1]) {}
    }
  }

  /** A refresh leaves the rule set alone without a publication, when the version is the
      one already loaded and nothing forces it, and when the snapshot does not compile;
      otherwise it loads that version, its rules in order and its lists. */
  lemma {:induction false} RefreshIs(source: Source, current: Option<Loaded>, published: Option<Publication>,
                                     force: bool)
    ensures published.None? ==> Refreshed(source, current, published, force) == current
    ensures published.Some? && !force && current.Some? && current.value.version == published.value.version ==>
              Refreshed(source, current, published, force) == current
    ensures published.Some? && (force || current.None? || current.value.version != published.value.version) ==>
              var c := CompileAll(source, published.value.rules);
              Refreshed(source, current, published, force)
              == if c.Compiled? then Some(Loaded(published.value.version, RuleSet(c.v), published.value.lists))
                 else current
  {
  }
}
