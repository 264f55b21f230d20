/** What the lifecycle writes down: the order and content of a snapshot, what a new
    version carries, and what each record says, call by call and over whole runs. */
module Publications {
  import opened Values
  import opened Evaluation
  import opened Sorting
  import opened Semantics
  import opened Lifecycle
  import opened FourEyes
  import opened Explanation
  import opened Transitions

  // ----------------------------------------------------------------- snapshots

  lemma {:induction false} EntryBeforeStrict()
    ensures StrictOrder(EntryBefore)
  {
    forall x ensures !EntryBefore(x, x) {
      TextLessIrreflexive(x.id);
    }
    forall x, y, z | EntryBefore(x, y) && EntryBefore(y, z) ensures EntryBefore(x, z) {
      if PriorityOf(x) == PriorityOf(y) == PriorityOf(z) {
        TextLessTransitive(x.id, y.id, z.id);
      }
    }
  }

  lemma {:induction false} EntriesOccurOnce(ids: seq<string>, rules: map<string, Rule>, e: Entry)
    requires forall i, j | 0 <= i < j < |ids| :: ids[i] != ids[j]
    ensures multiset(Entries(ids, rules))[e] <= 1
    ensures e.id !in ids ==> multiset(Entries(ids, rules))[e] == 0
  {
    if ids != [] {
      EntriesOccurOnce(ids[1..], rules, e);
      assert ids[0] !in ids[1..];
    }
  }

  lemma {:induction false} AscendingAt<T>(less: (T, T) -> bool, s: seq<T>, i: nat, j: nat)
    requires Ascending(less, s) && i < j < |s|
    ensures less(s[i], s[j])
  {
    if i > 0 {
      AscendingAt(less, s[1..], i - 1, j - 1);
    } else {
      assert s[j] == s[1..][j - 1];
    }
  }

  lemma {:induction false} SnapshotAscends(t: Tenant)
    requires IdsTidy(t)
    ensures Ascending(EntryBefore, Snapshot(t))
  {
    var entries := Entries(t.ids, t.rules);
    EntryBeforeStrict();
    forall x, y | x in entries && y in entries && x != y ensures EntryBefore(x, y) || EntryBefore(y, x) {
      EntriesExactly(t.ids, t.rules, x);
      EntriesExactly(t.ids, t.rules, y);
      TextLessTotal(x.id, y.id);
    }
    forall x | x in entries ensures multiset(entries)[x] == 1 {
      EntriesOccurOnce(t.ids, t.rules, x);
    }
    SortAscends(EntryBefore, entries);
  }

  /** A snapshot goes by priority, lowest first, then by id. */
  lemma {:induction false} SnapshotOrdered(t: Tenant, i: nat, j: nat, p: int, q: int)
    requires IdsTidy(t) && i < j < |Snapshot(t)|
    requires Priority in Snapshot(t)[i].content && Snapshot(t)[i].content[Priority] == Int(p)
    requires Priority in Snapshot(t)[j].content && Snapshot(t)[j].content[Priority] == Int(q)
    ensures p < q || (p == q && TextBefore(Snapshot(t)[i].id, Snapshot(t)[j].id))
  {
    SnapshotAscends(t);
    AscendingAt(EntryBefore, Snapshot(t), i, j);
    TextLessIff(Snapshot(t)[i].id, Snapshot(t)[j].id);
  }

  /** An entry holds the rule's name, expression, severity, priority, reference and
      message; its description and category stay behind. */
  lemma {:induction false} EntryHolds(t: Tenant, e: Entry)
    requires e in Snapshot(t)
    ensures e.id in t.rules && e.state == t.rules[e.id].state && (e.state == Active || e.state == Shadow)
    ensures forall f :: f in e.content <==> f != Description && f != Category
    ensures forall f | f in e.content && f in t.rules[e.id].content :: e.content[f] == t.rules[e.id].content[f]
    ensures forall f | f in e.content && f !in t.rules[e.id].content ::
              e.content[f] == if f == Priority then Int(0) else Text("")
  {
    SnapshotExactly(t, e);
  }

  // ------------------------------------------------------------------ versions

  /** The last version of `t'` is new, numbered above the others, and its publisher's. */
  ghost predicate NewVersion(t: Tenant, t': Tenant, publisher: Actor) {
    && |t'.versions| == |t.versions| + 1 && t'.versions[..|t.versions|] == t.versions
    && t'.versions[|t.versions|].publishedBy == publisher.id
    && forall v | v in t.versions :: v.number < t'.versions[|t.versions|].number
  }

  lemma {:induction false} LatestIsHighest(versions: seq<Version>)
    ensures forall v | v in versions :: v.number <= Latest(versions)
  {
    if versions != [] {
      LatestIsHighest(versions[..|versions| - 1]);
      assert versions == versions[..|versions| - 1] + [versions[|versions| - 1]];
    }
  }

  /** Activating, archiving and saving a list publish the rules in force and the lists,
      both as the call leaves them. */
  lemma {:induction false} PublishingMakes(t: Tenant, valid: Validates, call: Call)
    requires Attempt(t, valid, call).Done?
    requires call.command.Activating? || call.command.Archiving? || call.command.SavingList?
    ensures var t' := Attempt(t, valid, call).t;
            && NewVersion(t, t', call.actor)
            && t'.versions[|t.versions|].rules == Snapshot(t') && t'.versions[|t.versions|].lists == t'.lists
  {
    LatestIsHighest(t.versions);
  }

  /** A revert publishes the rules and the lists of the version it names. */
  lemma {:induction false} RevertingMakes(t: Tenant, actor: Actor, to: int)
    requires Revert(t, actor, to).Done?
    ensures var t' := Revert(t, actor, to).t;
            && NewVersion(t, t', actor) && t'.rules == t.rules && t'.ids == t.ids
            && exists s | s in t.versions ::
                 && s.number == to && t'.versions[|t.versions|].rules == s.rules
                 && t'.versions[|t.versions|].lists == s.lists
  {
    LatestIsHighest(t.versions);
    FindsListed(t.versions, to);
  }

  // ------------------------------------------------------------------- records

  /** One record more, of this actor and this event. */
  ghost predicate Records(t: Tenant, result: Result, actor: Actor, e: Event) {
    result.Done? && result.t.trail == t.trail + [Record(actor, e)]
  }

  lemma {:induction false} ActivatingRecords(t: Tenant, actor: Actor, id: string, reason: string)
    requires Activate(t, actor, id, reason).Done? && Numbered(t.versions)
    ensures id in t.rules
         && Records(t, Activate(t, actor, id, reason), actor,
                    Activated(id, t.rules[id].version, |t.versions| + 1, t.rules[id].approvedBy, reason))
  {
    LatestIsLast(t.versions);
    LatestOfMore(t.versions, Moved(t, actor, id, Active).versions[|t.versions|]);
  }

  lemma {:induction false} LatestOfMore(versions: seq<Version>, v: Version)
    requires v.number > Latest(versions)
    ensures Latest(versions + [v]) == v.number
  {
    assert (versions + [v])[..|versions|] == versions;
  }

  lemma {:induction false} ArchivingRecords(t: Tenant, actor: Actor, id: string, reason: string)
    requires Archive(t, actor, id, reason).Done? && Numbered(t.versions)
    ensures Records(t, Archive(t, actor, id, reason), actor, ArchivedRule(id, reason, |t.versions| + 1))
  {
    LatestIsLast(t.versions);
    LatestOfMore(t.versions, Moved(t, actor, id, Archived).versions[|t.versions|]);
  }

  lemma {:induction false} SavingRecords(t: Tenant, actor: Actor, list: string, values: seq<Value>)
    requires Numbered(t.versions)
    ensures Records(t, SaveList(t, actor, list, values), actor,
                    ListSaved(list !in t.lists, list, values, |t.versions| + 1))
  {
    LatestIsLast(t.versions);
    var t' := SaveList(t, actor, list, values).t;
    LatestOfMore(t.versions, t'.versions[|t.versions|]);
  }

  lemma {:induction false} RevertingRecords(t: Tenant, actor: Actor, to: int)
    requires Revert(t, actor, to).Done? && Numbered(t.versions)
    ensures Records(t, Revert(t, actor, to), actor, Reverted(to, |t.versions| + 1))
  {
    LatestIsLast(t.versions);
  }

  lemma {:induction false} CreatingRecords(t: Tenant, valid: Validates, actor: Actor, id: string, fields: Content)
    requires CreateDraft(t, valid, actor, id, fields).Done?
    ensures var t' := CreateDraft(t, valid, actor, id, fields).t;
            && id in t'.rules
            && var c := t'.rules[id].content;
               Records(t, Done(t'), actor,
                       Created(id, Look(c, RuleName), Look(c, Expression), Look(c, SeverityName)))
  {
  }

  /** A value that stood in the rule, and the different one the request gives. */
  predicate Replaces(c: Content, fields: Content, x: Change) {
    x.field in fields && x.before == Look(c, x.field) && x.after == fields[x.field] && x.before != x.after
  }

  /** The changes an edit records are the fields whose value it replaces by another. */
  lemma {:induction false} ChangesAre(c: Content, fields: Content, order: seq<Field>, x: Change)
    ensures x in Changes(c, fields, order)
       <==> x.field in order && Replaces(c, fields, x)
  {
    if order != [] {
      ChangesAre(c, fields, order[1..], x);
    }
  }

  /** The edit's record: the new version, what it changed, and whether an approval went. */
  lemma {:induction false} EditingRecords(t: Tenant, valid: Validates, actor: Actor, id: string, fields: Content)
    requires EditDraft(t, valid, actor, id, fields).Done? && id in t.rules
    requires EditDraft(t, valid, actor, id, fields).t != t
    ensures var t' := EditDraft(t, valid, actor, id, fields).t;
            && |t'.trail| == |t.trail| + 1
            && var e := t'.trail[|t.trail|].event;
               && e.Edited? && Records(t, Done(t'), actor, e)
               && e.rule == id && e.version == t.rules[id].version + 1
               && (e.approvalReset <==> t.rules[id].approvedBy != "")
               && forall x :: x in e.changes <==> Replaces(t.rules[id].content, fields, x)
  {
    var changes := Changes(t.rules[id].content, fields, FIELDS);
    EditWrites(t, valid, actor, id, fields);
    EveryField();
    forall x ensures x in changes <==> Replaces(t.rules[id].content, fields, x) {
      ChangesAre(t.rules[id].content, fields, FIELDS, x);
    }
  }

  /** Requests, approvals and moves to shadow are recorded with the rule's version, an
      approval with its creator and its reason. */
  lemma {:induction false} DecidingRecords(t: Tenant, actor: Actor, id: string, reason: string)
    requires id in t.rules
    ensures var r := t.rules[id];
            && (RequestApproval(t, actor, id).Done? ==>
                  && Records(t, RequestApproval(t, actor, id), actor,
                             ApprovalRequested(id, r.version, Look(r.content, Expression)))
                  && RequestApproval(t, actor, id).t.rules == t.rules)
            && (Approve(t, actor, id, reason).Done? ==>
                  Records(t, Approve(t, actor, id, reason), actor, Approved(id, r.version, r.createdBy, reason)))
            && (MoveToShadow(t, actor, id).Done? ==>
                  Records(t, MoveToShadow(t, actor, id), actor, Shadowed(id, r.version)))
  {
  }

  // ---------------------------------------------------------------- every run

  function Tally(trail: seq<Record>, p: Record -> bool): nat {
    if trail == [] then 0
    else Tally(trail[..|trail| - 1], p) + if p(trail[|trail| - 1]) then 1 else 0
  }

  function Edits(id: string): Record -> bool {
    (r: Record) => r.event.Edited? && r.event.rule == id
  }

  function Creates(id: string): Record -> bool {
    (r: Record) => r.event.Created? && r.event.rule == id
  }

  predicate Publishes(r: Record) {
    r.event.Activated? || r.event.ArchivedRule? || r.event.Reverted? || r.event.ListSaved?
  }

  /** The number of the version a record says it published. */
  function NumberIn(r: Record): nat
    requires Publishes(r)
  {
    match r.event
    case Activated(_, _, n, _, _) => n
    case ArchivedRule(_, _, n) => n
    case Reverted(_, n) => n
    case ListSaved(_, _, _, n) => n
  }

  /** Each rule has one creating record, by its creator, and one editing record for
      each version after the first; the n-th publishing record names version n. */
  ghost predicate Accounted(t: Tenant) {
    && (forall id | id in t.rules ::
          Tally(t.trail, Creates(id)) == 1 && t.rules[id].version == 1 + Tally(t.trail, Edits(id)))
    && (forall id | id !in t.rules :: Tally(t.trail, Creates(id)) == 0 && Tally(t.trail, Edits(id)) == 0)
    && (forall r | r in t.trail && r.event.Created? ::
          r.event.rule in t.rules && t.rules[r.event.rule].createdBy == r.actor.id)
    && |t.versions| == Tally(t.trail, Publishes)
    && forall i | 0 <= i < |t.trail| && Publishes(t.trail[i]) ::
         NumberIn(t.trail[i]) == Tally(t.trail[..i + 1], Publishes)
  }

  /** What a record says of the rule it is about, compared with the tables. */
  predicate Tells(t: Tenant, t': Tenant, r: Record, id: string) {
    && (id in t.rules ==>
          && id in t'.rules && !Creates(id)(r) && t'.rules[id].createdBy == t.rules[id].createdBy
          && t'.rules[id].version == t.rules[id].version + if Edits(id)(r) then 1 else 0)
    && (id !in t.rules && id in t'.rules ==>
          Creates(id)(r) && t'.rules[id].createdBy == r.actor.id && t'.rules[id].version == 1)
    && (id !in t.rules ==> !Edits(id)(r))
    && (id !in t'.rules ==> !Creates(id)(r))
  }

  /** The record matches what happened to every rule and to the versions. */
  ghost predicate Matches(t: Tenant, t': Tenant, r: Record) {
    && t'.trail == t.trail + [r]
    && (forall id :: Tells(t, t', r, id))
    && |t'.versions| == |t.versions| + (if Publishes(r) then 1 else 0)
    && (Publishes(r) ==> NumberIn(r) == |t'.versions|)
  }

  lemma {:induction false} TallyMore(trail: seq<Record>, r: Record, p: Record -> bool)
    ensures Tally(trail + [r], p) == Tally(trail, p) + if p(r) then 1 else 0
  {
    assert (trail + [r])[..|trail|] == trail;
  }

  lemma {:induction false} MatchKeepsRules(t: Tenant, t': Tenant, r: Record, id: string)
    requires Accounted(t) && Matches(t, t', r)
    ensures id in t'.rules ==>
              Tally(t'.trail, Creates(id)) == 1 && t'.rules[id].version == 1 + Tally(t'.trail, Edits(id))
    ensures id !in t'.rules ==> Tally(t'.trail, Creates(id)) == 0 && Tally(t'.trail, Edits(id)) == 0
  {
    assert Tells(t, t', r, id);
    TallyMore(t.trail, r, Creates(id));
    TallyMore(t.trail, r, Edits(id));
  }

  lemma {:induction false} MatchKeepsAccounts(t: Tenant, t': Tenant, r: Record)
    requires Accounted(t) && Matches(t, t', r)
    ensures Accounted(t')
  {
    forall id ensures id in t'.rules ==>
                        Tally(t'.trail, Creates(id)) == 1 && t'.rules[id].version == 1 + Tally(t'.trail, Edits(id))
              ensures id !in t'.rules ==> Tally(t'.trail, Creates(id)) == 0 && Tally(t'.trail, Edits(id)) == 0 {
      MatchKeepsRules(t, t', r, id);
    }
    forall x | x in t'.trail && x.event.Created?
      ensures x.event.rule in t'.rules && t'.rules[x.event.rule].createdBy == x.actor.id {
      assert Tells(t, t', r, x.event.rule);
      assert x in t.trail || x == r;
    }
    TallyMore(t.trail, r, Publishes);
    forall i | 0 <= i < |t'.trail| && Publishes(t'.trail[i])
      ensures NumberIn(t'.trail[i]) == Tally(t'.trail[..i + 1], Publishes) {
      if i < |t.trail| {
        assert t'.trail[i] == t.trail[i] && t'.trail[..i + 1] == t.trail[..i + 1];
      } else {
        assert t'.trail[..i + 1] == t'.trail;
      }
    }
  }

  lemma {:induction false} CreatingMatches(t: Tenant, valid: Validates, actor: Actor, id: string, fields: Content)
    requires CreateDraft(t, valid, actor, id, fields).Done?
    ensures Matches(t, CreateDraft(t, valid, actor, id, fields).t,
                    Record(actor, Created(id, Look(fields, RuleName), Look(fields, Expression),
                                          Look(fields, SeverityName))))
  {
  }

  lemma {:induction false} EditingMatches(t: Tenant, valid: Validates, actor: Actor, id: string, fields: Content)
    requires EditDraft(t, valid, actor, id, fields).Done? && EditDraft(t, valid, actor, id, fields).t != t
    ensures exists e :: Matches(t, EditDraft(t, valid, actor, id, fields).t, Record(actor, e))
  {
    EditIs(t, valid, actor, id, fields);
    EditWrites(t, valid, actor, id, fields);
    RevisingMatches(t, actor, id, fields, Changes(t.rules[id].content, fields, FIELDS));
  }

  lemma {:induction false} RevisingMatches(t: Tenant, actor: Actor, id: string, fields: Content, changes: seq<Change>)
    requires id in t.rules
    ensures exists e :: Matches(t, Revise(t, actor, id, fields, changes), Record(actor, e))
  {
    var r := t.rules[id];
    var e := Edited(id, r.version + 1, changes, r.approvedBy != "");
    assert Matches(t, Revise(t, actor, id, fields, changes), Record(actor, e));
  }

  lemma {:induction false} DecidingMatches(t: Tenant, actor: Actor, id: string, reason: string)
    requires id in t.rules
    ensures var r := t.rules[id];
            && (RequestApproval(t, actor, id).Done? ==>
                  Matches(t, RequestApproval(t, actor, id).t,
                          Record(actor, ApprovalRequested(id, r.version, Look(r.content, Expression)))))
            && (Approve(t, actor, id, reason).Done? ==>
                  Matches(t, Approve(t, actor, id, reason).t,
                          Record(actor, Approved(id, r.version, r.createdBy, reason))))
            && (MoveToShadow(t, actor, id).Done? ==>
                  Matches(t, MoveToShadow(t, actor, id).t, Record(actor, Shadowed(id, r.version))))
  {
  }

  lemma {:induction false} PublishedMatches(t: Tenant, t': Tenant, r: Record)
    requires t'.trail == t.trail + [r] && Publishes(r)
    requires |t'.versions| == |t.versions| + 1 && NumberIn(r) == |t'.versions|
    requires t'.rules.Keys == t.rules.Keys
    requires forall id | id in t.rules ::
               t'.rules[id].createdBy == t.rules[id].createdBy && t'.rules[id].version == t.rules[id].version
    ensures Matches(t, t', r)
  {
  }

  lemma {:induction false} MovingMatches(t: Tenant, actor: Actor, id: string, reason: string)
    requires Tidy(t)
    ensures Activate(t, actor, id, reason).Done? ==>
              exists e :: Matches(t, Activate(t, actor, id, reason).t, Record(actor, e))
    ensures Archive(t, actor, id, reason).Done? ==>
              exists e :: Matches(t, Archive(t, actor, id, reason).t, Record(actor, e))
  {
    if Activate(t, actor, id, reason).Done? {
      ActivatingRecords(t, actor, id, reason);
      MovingMakes(t, actor, id, reason);
      PublishedMatches(t, Activate(t, actor, id, reason).t,
                       Record(actor, Activated(id, t.rules[id].version, |t.versions| + 1, t.rules[id].approvedBy,
                                               reason)));
    }
    if Archive(t, actor, id, reason).Done? {
      ArchivingRecords(t, actor, id, reason);
      MovingMakes(t, actor, id, reason);
      PublishedMatches(t, Archive(t, actor, id, reason).t, Record(actor, ArchivedRule(id, reason, |t.versions| + 1)));
    }
  }

  lemma {:induction false} VersioningMatches(t: Tenant, actor: Actor, to: int, list: string, values: seq<Value>)
    requires Tidy(t)
    ensures Revert(t, actor, to).Done? ==> exists e :: Matches(t, Revert(t, actor, to).t, Record(actor, e))
    ensures exists e :: Matches(t, SaveList(t, actor, list, values).t, Record(actor, e))
  {
    if Revert(t, actor, to).Done? {
      RevertingRecords(t, actor, to);
      PublishedMatches(t, Revert(t, actor, to).t, Record(actor, Reverted(to, |t.versions| + 1)));
    }
    SavingRecords(t, actor, list, values);
    PublishedMatches(t, SaveList(t, actor, list, values).t,
                     Record(actor, ListSaved(list !in t.lists, list, values, |t.versions| + 1)));
  }

  /** Every call either changes nothing or leaves one matching record. */
  lemma {:induction false} CallMatches(t: Tenant, valid: Validates, call: Call)
    requires Tidy(t) && Attempt(t, valid, call).Done? && Attempt(t, valid, call).t != t
    ensures exists e :: Matches(t, Attempt(t, valid, call).t, Record(call.actor, e))
  {
    match call.command
    case Creating(id, fields) => CreatingMatches(t, valid, call.actor, id, fields);
    case Editing(id, fields) => EditingMatches(t, valid, call.actor, id, fields);
    case Requesting(id) => DecidingMatches(t, call.actor, id, "");
    case Approving(id, reason) => DecidingMatches(t, call.actor, id, reason);
    case Shadowing(id) => DecidingMatches(t, call.actor, id, "");
    case Activating(id, reason) => MovingMatches(t, call.actor, id, reason);
    case Archiving(id, reason) => MovingMatches(t, call.actor, id, reason);
    case Reverting(to) => VersioningMatches(t, call.actor, to, "", []);
    case SavingList(list, values) => VersioningMatches(t, call.actor, 0, list, values);
  }

  /** In every run the trail accounts for each rule's creator and version number and
      for each published version's number. */
  lemma {:induction false} RunsAccount(valid: Validates, calls: seq<Call>)
    ensures Accounted(After(valid, calls))
  {
    if calls != [] {
      var earlier, call := calls[..|calls| - 1], calls[|calls| - 1];
      var t := After(valid, earlier);
      RunsAccount(valid, earlier);
      TrailExplains(valid, earlier);
      if Attempt(t, valid, call).Done? && Attempt(t, valid, call).t != t {
        CallMatches(t, valid, call);
        var e :| Matches(t, Attempt(t, valid, call).t, Record(call.actor, e));
        MatchKeepsAccounts(t, Attempt(t, valid, call).t, Record(call.actor, e));
      }
    }
  }
}
